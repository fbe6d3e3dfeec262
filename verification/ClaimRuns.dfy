/**
 Whole runs of the claim engine: replaying the ledger lands on the live state, a LOCKED claim
 has passed every stage under the eyes of other people, and it never changes again.
 */
module ClaimRuns {
  import opened Outcomes
  import opened Claims
  import PyText

  /** The live state together with the ledger it has written. */
  datatype World = World(state: State, ledger: seq<Record>)

  const START := World(EMPTY, [])

  /** One operation, accepted or refused. */
  function After(env: Naming, w: World, op: Op): World {
    if Refused(env, w.state, op).Some? then w
    else World(Step(env, w.state, op), w.ledger + [Written(env, w.state, op)])
  }

  /** What the caller of an operation is told. */
  function Answer(env: Naming, s: State, op: Op): Result<Claim, Refusal> {
    if Refused(env, s, op).Some? then Err(Refused(env, s, op).value)
    else
      var id := if op.Open? then ClaimId(env, op.content) else op.id;
      Ok(Step(env, s, op).claims[id])
  }

  /** A sequence of operations on one long-lived engine. */
  function Run(env: Naming, w: World, ops: seq<Op>): World
    decreases |ops|
  {
    if ops == [] then w else Run(env, After(env, w, ops[0]), ops[1..])
  }

  function Answers(env: Naming, w: World, ops: seq<Op>): seq<Result<Claim, Refusal>>
    decreases |ops|
  {
    if ops == [] then [] else [Answer(env, w.state, ops[0])] + Answers(env, After(env, w, ops[0]), ops[1..])
  }

  /** The same operations, each on an engine freshly loaded from the ledger. */
  function ReloadedRun(env: Naming, ledger: seq<Record>, ops: seq<Op>): (seq<Record>, seq<Result<Claim, Refusal>>)
    decreases |ops|
  {
    if ops == [] then (ledger, [])
    else
      var loaded := World(Replay(ledger), ledger);
      var rest := ReloadedRun(env, After(env, loaded, ops[0]).ledger, ops[1..]);
      (rest.0, [Answer(env, loaded.state, ops[0])] + rest.1)
  }

  /* ---------- the invariant ---------- */

  /** A transition that the engine's checks let through on a claim opened by `opener`. */
  predicate IsGuarded(env: Naming, opener: string, t: Transition) {
    && Target(t.from, t.action) == Some(t.target)
    && !IsBlankName(t.actor)
    && ((t.action.Approve? || t.action.Lock?) ==> !SamePerson(env, t.actor, opener))
    && (t.action.Lock? ==>
          t.confirmedBy.Some? && !IsBlankName(t.confirmedBy.value) && !SamePerson(env, t.confirmedBy.value, t.actor))
    && (!t.action.Lock? ==> t.confirmedBy.None?)
  }

  /** A chain of guarded transitions of claim `id` from DRAFT to `status`. */
  predicate IsTrail(env: Naming, id: string, opener: string, trail: seq<Transition>, status: Status) {
    if trail == [] then status.Draft?
    else
      var last := trail[|trail| - 1];
      && last.id == id && last.target == status && IsGuarded(env, opener, last)
      && IsTrail(env, id, opener, trail[..|trail| - 1], last.from)
  }

  /** A claim and its history tell the same story. */
  predicate IsConsistent(env: Naming, id: string, claim: Claim, trail: seq<Transition>) {
    && claim.id == id == ClaimId(env, claim.content) && !IsBlankName(claim.content.statement)
    && IsTrail(env, id, claim.content.openedBy, trail, claim.status)
    && (if trail == [] then claim.lockedBy.None? && claim.updatedAt == claim.openedAt
        else claim.lockedBy == trail[|trail| - 1].confirmedBy && claim.updatedAt == trail[|trail| - 1].at)
  }

  ghost predicate IsSound(env: Naming, w: World) {
    && w.state == Replay(w.ledger)
    && w.state.claims.Keys == w.state.history.Keys
    && forall id | id in w.state.claims :: IsConsistent(env, id, w.state.claims[id], w.state.history[id])
  }

  lemma TrailNext(env: Naming, id: string, opener: string, trail: seq<Transition>, status: Status, t: Transition)
    requires IsTrail(env, id, opener, trail, status)
    requires t.id == id && t.from == status && IsGuarded(env, opener, t)
    ensures IsTrail(env, id, opener, trail + [t], t.target)
  {
    assert (trail + [t])[..|trail|] == trail;
  }

  /** Replaying the line an operation writes does what the operation did. */
  lemma WrittenReplays(env: Naming, s: State, op: Op)
    requires s.claims.Keys == s.history.Keys && Refused(env, s, op).None?
    ensures ReplayOne(s, Written(env, s, op)) == Step(env, s, op)
  {
  }

  lemma StepKeepsConsistency(env: Naming, s: State, op: Op, id: string)
    requires s.claims.Keys == s.history.Keys && Refused(env, s, op).None?
    requires forall i | i in s.claims :: IsConsistent(env, i, s.claims[i], s.history[i])
    requires id in Step(env, s, op).claims
    ensures id in Step(env, s, op).history
    ensures IsConsistent(env, id, Step(env, s, op).claims[id], Step(env, s, op).history[id])
  {
    hide IsConsistent, IsBlankName, SamePerson, ClaimId;
    if op.Apply? && op.id == id {
      MoveKeepsConsistency(env, s, op);
    } else if op.Open? && ClaimId(env, op.content) == id {
      OpenIsConsistent(env, s, op);
    }
  }

  lemma MoveKeepsConsistency(env: Naming, s: State, op: Op)
    requires op.Apply? && Refused(env, s, op).None? && op.id in s.claims && op.id in s.history
    requires IsConsistent(env, op.id, s.claims[op.id], s.history[op.id])
    ensures IsConsistent(env, op.id, Step(env, s, op).claims[op.id], Step(env, s, op).history[op.id])
  {
    hide IsTrail, IsBlankName, SamePerson, ClaimId;
    var claim, t := s.claims[op.id], Written(env, s, op).transition;
    TrailNext(env, op.id, claim.content.openedBy, s.history[op.id], claim.status, t);
    NoWayOutOfLocked(env, op.id, claim.content.openedBy, s.history[op.id], claim.status);
  }

  lemma OpenIsConsistent(env: Naming, s: State, op: Op)
    requires op.Open? && Refused(env, s, op).None?
    ensures var id := ClaimId(env, op.content);
      IsConsistent(env, id, Step(env, s, op).claims[id], Step(env, s, op).history[id])
  {
    hide IsTrail, ClaimId;
    EmptyTrail(env, ClaimId(env, op.content), op.content.openedBy);
  }

  lemma EmptyTrail(env: Naming, id: string, opener: string)
    ensures IsTrail(env, id, opener, [], Draft)
  {
  }

  /** Only the last transition of a trail can carry a confirmer, and only into LOCKED. */
  lemma NoWayOutOfLocked(env: Naming, id: string, opener: string, trail: seq<Transition>, status: Status)
    requires IsTrail(env, id, opener, trail, status) && !status.Locked?
    ensures trail != [] ==> trail[|trail| - 1].confirmedBy.None?
  {
  }

  lemma AfterKeepsSound(env: Naming, w: World, op: Op)
    requires IsSound(env, w)
    ensures IsSound(env, After(env, w, op))
  {
    hide IsConsistent, Refused, Step, Written, ReplayOne, Replay;
    if Refused(env, w.state, op).None? {
      WrittenReplays(env, w.state, op);
      ReplayNext(w.ledger, Written(env, w.state, op));
      StepKeys(env, w.state, op);
      forall id | id in Step(env, w.state, op).claims
        ensures IsConsistent(env, id, Step(env, w.state, op).claims[id], Step(env, w.state, op).history[id])
      {
        StepKeepsConsistency(env, w.state, op, id);
      }
    }
  }

  lemma StepKeys(env: Naming, s: State, op: Op)
    requires Refused(env, s, op).None? && s.claims.Keys == s.history.Keys
    ensures Step(env, s, op).claims.Keys == Step(env, s, op).history.Keys
  {
  }

  lemma {:induction false} RunKeepsSound(env: Naming, w: World, ops: seq<Op>)
    requires IsSound(env, w)
    ensures IsSound(env, Run(env, w, ops))
    decreases |ops|
  {
    hide IsSound, After;
    if ops != [] {
      AfterKeepsSound(env, w, ops[0]);
      RunKeepsSound(env, After(env, w, ops[0]), ops[1..]);
    }
  }

  lemma StartIsSound(env: Naming)
    ensures IsSound(env, START)
  {
  }

  /* ---------- replay ---------- */

  /**
   After any sequence of accepted and refused operations, loading the written ledger gives the
   live claims and history.
   */
  lemma ReplayIsLive(env: Naming, ops: seq<Op>)
    ensures var w := Run(env, START, ops);
      Replay(w.ledger) == w.state
  {
    StartIsSound(env);
    RunKeepsSound(env, START, ops);
  }

  /** An engine loaded per request answers, and writes, like one long-lived engine. */
  lemma {:induction false} ReloadingRefines(env: Naming, w: World, ops: seq<Op>)
    requires IsSound(env, w)
    ensures ReloadedRun(env, w.ledger, ops) == (Run(env, w, ops).ledger, Answers(env, w, ops))
    decreases |ops|
  {
    hide Refused, Step, Written, Replay, IsConsistent;
    if ops != [] {
      AfterKeepsSound(env, w, ops[0]);
      ReloadingRefines(env, After(env, w, ops[0]), ops[1..]);
    }
  }

  /* ---------- what LOCKED means ---------- */

  /** The last step of a trail, read backwards. */
  lemma TrailEnds(env: Naming, id: string, opener: string, trail: seq<Transition>, status: Status)
    requires IsTrail(env, id, opener, trail, status)
    ensures status.Draft? ==> trail == []
    ensures !status.Draft? ==>
              && trail != []
              && var last := trail[|trail| - 1];
                 && IsGuarded(env, opener, last) && last.id == id && last.target == status
                 && IsTrail(env, id, opener, trail[..|trail| - 1], last.from)
    ensures status.Submitted? ==> trail[|trail| - 1].action.Submit? && trail[|trail| - 1].from.Draft?
    ensures status.UnderReview? ==> trail[|trail| - 1].action.StartReview? && trail[|trail| - 1].from.Submitted?
    ensures status.Approved? ==> trail[|trail| - 1].action.Approve? && trail[|trail| - 1].from.UnderReview?
    ensures status.Locked? ==> trail[|trail| - 1].action.Lock? && trail[|trail| - 1].from.Approved?
  {
  }

  /** The trail of a locked claim is exactly submit, start review, approve, lock. */
  ghost predicate IsReviewed(env: Naming, claim: Claim, trail: seq<Transition>) {
    && |trail| == 4
    && trail[0].action.Submit? && trail[1].action.StartReview? && trail[2].action.Approve? && trail[3].action.Lock?
    && !SamePerson(env, trail[2].actor, claim.content.openedBy)
    && !SamePerson(env, trail[3].actor, claim.content.openedBy)
    && claim.lockedBy.Some? && claim.lockedBy == trail[3].confirmedBy && claim.updatedAt == trail[3].at
    && !IsBlankName(claim.content.statement)
    && !IsBlankName(claim.lockedBy.value) && !SamePerson(env, claim.lockedBy.value, trail[3].actor)
  }

  lemma LockedTrail(env: Naming, id: string, claim: Claim, trail: seq<Transition>)
    requires IsConsistent(env, id, claim, trail) && claim.status.Locked?
    ensures IsReviewed(env, claim, trail)
  {
    hide IsTrail, SamePerson, IsBlankName;
    var opener := claim.content.openedBy;
    var t3 := trail;
    TrailEnds(env, id, opener, t3, Locked);
    var t2 := t3[..|t3| - 1];
    TrailEnds(env, id, opener, t2, Approved);
    var t1 := t2[..|t2| - 1];
    TrailEnds(env, id, opener, t1, UnderReview);
    var t0 := t1[..|t1| - 1];
    TrailEnds(env, id, opener, t0, Submitted);
    TrailEnds(env, id, opener, t0[..|t0| - 1], Draft);
  }

  lemma LockedMeansReviewed(env: Naming, ops: seq<Op>, id: string)
    ensures var s := Run(env, START, ops).state;
      IsLocked(s, id) ==> IsReviewed(env, s.claims[id], HistoryOf(s, id))
  {
    hide IsConsistent, IsReviewed;
    StartIsSound(env);
    RunKeepsSound(env, START, ops);
    var s := Run(env, START, ops).state;
    if IsLocked(s, id) {
      LockedTrail(env, id, s.claims[id], s.history[id]);
    }
  }

  /* ---------- locked is forever ---------- */

  /** Two states agree on a claim and its history. */
  predicate AgreeOn(a: State, b: State, id: string) {
    id in a.claims && id in b.claims && a.claims[id] == b.claims[id] && HistoryOf(a, id) == HistoryOf(b, id)
  }

  /** An operation changes no claim but the one it names, and no claim in a terminal status. */
  lemma AfterTouchesOne(env: Naming, w: World, op: Op, id: string)
    requires id in w.state.claims
    requires IsTerminal(w.state.claims[id].status) || op.Open? || op.id != id
    ensures AgreeOn(w.state, After(env, w, op).state, id)
  {
  }

  lemma {:induction false} TerminalIsForever(env: Naming, w: World, ops: seq<Op>, id: string)
    requires id in w.state.claims && IsTerminal(w.state.claims[id].status)
    ensures AgreeOn(w.state, Run(env, w, ops).state, id)
    decreases |ops|
  {
    hide After;
    if ops != [] {
      AfterTouchesOne(env, w, ops[0], id);
      TerminalIsForever(env, After(env, w, ops[0]), ops[1..], id);
    }
  }

  /**
   Once every requested claim is locked, exporting them gives the same package after any further
   operations, and from an engine reloaded then.
   */
  lemma ExportIsForever(env: Naming, ops: seq<Op>, more: seq<Op>, ids: seq<string>)
    requires Exported(Run(env, START, ops).state, ids).Ok?
    ensures var w, w' := Run(env, START, ops), Run(env, Run(env, START, ops), more);
      && Exported(w'.state, ids) == Exported(w.state, ids)
      && Exported(Replay(w'.ledger), ids) == Exported(w.state, ids)
  {
    hide Run, Replay, IsConsistent;
    var w := Run(env, START, ops);
    var w' := Run(env, w, more);
    StartIsSound(env);
    RunKeepsSound(env, START, ops);
    RunKeepsSound(env, w, more);
    forall k | 0 <= k < |ids|
      ensures AgreeOn(w.state, w'.state, ids[k])
    {
      assert IsLocked(w.state, ids[k]);
      TerminalIsForever(env, w, more, ids[k]);
    }
    SamePackage(w.state, w'.state, ids);
  }

  lemma SamePackage(a: State, b: State, ids: seq<string>)
    requires AllLocked(a, ids) && forall k | 0 <= k < |ids| :: AgreeOn(a, b, ids[k])
    ensures AllLocked(b, ids) && Packed(a, ids) == Packed(b, ids)
  {
    assert forall k | 0 <= k < |ids| :: IsLocked(b, ids[k]) by {
      forall k | 0 <= k < |ids| ensures IsLocked(b, ids[k]) {
        assert IsLocked(a, ids[k]) && AgreeOn(a, b, ids[k]);
      }
    }
    assert Packed(a, ids).claims == Packed(b, ids).claims;
    forall id | id in ids ensures HistoryOf(a, id) == HistoryOf(b, id) {
      var k :| 0 <= k < |ids| && ids[k] == id;
      assert AgreeOn(a, b, ids[k]);
    }
    assert Packed(a, ids).history == Packed(b, ids).history;
  }

  /* ---------- four-eyes, as the code has it ---------- */

  /** The history of a claim that has been submitted begins with its submission. */
  lemma FirstIsSubmission(env: Naming, ops: seq<Op>, id: string)
    requires var s := Run(env, START, ops).state;
      id in s.claims && (s.claims[id].status.UnderReview? || s.claims[id].status.Approved?)
    ensures HistoryOf(Run(env, START, ops).state, id) != []
    ensures HistoryOf(Run(env, START, ops).state, id)[0].action.Submit?
    ensures !IsBlankName(HistoryOf(Run(env, START, ops).state, id)[0].actor)
  {
    hide Run, IsTrail, IsBlankName, IsConsistent, IsGuarded, Replay;
    StartIsSound(env);
    RunKeepsSound(env, START, ops);
    var s := Run(env, START, ops).state;
    TrailBegins(env, id, s.claims[id], s.history[id]);
  }

  lemma TrailBegins(env: Naming, id: string, claim: Claim, trail: seq<Transition>)
    requires IsConsistent(env, id, claim, trail) && (claim.status.UnderReview? || claim.status.Approved?)
    ensures trail != [] && trail[0].action.Submit? && !IsBlankName(trail[0].actor)
  {
    hide IsTrail, IsBlankName, SamePerson, ClaimId;
    var opener, reviewed := claim.content.openedBy, trail;
    TrailEnds(env, id, opener, trail, claim.status);
    if claim.status.Approved? {
      reviewed := trail[..|trail| - 1];
      TrailEnds(env, id, opener, reviewed, UnderReview);
    }
    var before := reviewed[..|reviewed| - 1];
    TrailEnds(env, id, opener, before, Submitted);
    TrailEnds(env, id, opener, before[..|before| - 1], Draft);
    assert trail[0] == reviewed[0] == before[0];
  }

  /**
   The lifecycle's documentation keeps the actor who submitted a claim from approving or locking
   it. The check compares with the opener: a submitter is refused - on those grounds only -
   exactly when they are the person who opened the claim.
   */
  lemma SubmitterIsStoppedIffOpener(env: Naming, ops: seq<Op>, id: string, now: int, note: Option<string>,
                                    confirmer: string)
    requires var s := Run(env, START, ops).state;
      id in s.claims && (s.claims[id].status.UnderReview? || s.claims[id].status.Approved?)
    ensures HistoryOf(Run(env, START, ops).state, id) != []
    ensures
      var s := Run(env, START, ops).state;
      var submitter, opener := HistoryOf(s, id)[0].actor, s.claims[id].content.openedBy;
      var approving := Refused(env, s, Op.Apply(id, Approve, submitter, now, note, None));
      var locking := Refused(env, s, Op.Apply(id, Lock, submitter, now, note, Some(confirmer)));
      && (s.claims[id].status.UnderReview? ==>
            approving == if SamePerson(env, submitter, opener) then Some(FourEyes) else None)
      && (s.claims[id].status.Approved? && !IsBlankName(confirmer) && !SamePerson(env, confirmer, submitter) ==>
            locking == if SamePerson(env, submitter, opener) then Some(FourEyes) else None)
  {
    hide Run, IsBlankName, SamePerson;
    FirstIsSubmission(env, ops, id);
  }

  const PLAIN := Naming((s: string) => s, (k: Kind, s: string, w: string, o: string) => "c1")

  /** One person can submit, approve and lock, and the opener can be the confirmer. */
  lemma TwoPeopleCanLock()
    ensures exists ops: seq<Op> ::
      var s := Run(PLAIN, START, ops).state;
      && IsLocked(s, "c1") && |HistoryOf(s, "c1")| == 4
      && (forall k | 0 <= k < 4 :: HistoryOf(s, "c1")[k].actor == "bob")
      && s.claims["c1"].content.openedBy == "ann" && s.claims["c1"].lockedBy == Some("ann")
  {
    var content := Content(KpiMetric, "gmroi", "is 1.73", "1.73", None, None, None, map[], "ann");
    var o0 := Op.Open(content, 0);
    var o1 := Op.Apply("c1", Submit, "bob", 1, None, None);
    var o2 := Op.Apply("c1", StartReview, "bob", 2, None, None);
    var o3 := Op.Apply("c1", Approve, "bob", 3, None, None);
    var o4 := Op.Apply("c1", Lock, "bob", 4, None, Some("ann"));
    var w1 := After(PLAIN, START, o0);
    var w2 := After(PLAIN, w1, o1);
    var w3 := After(PLAIN, w2, o2);
    var w4 := After(PLAIN, w3, o3);
    var w5 := After(PLAIN, w4, o4);
    StripPlain();
    RunFive(PLAIN, o0, o1, o2, o3, o4);
    hide Run, PyText.Strip, PyText.LStrip, PyText.RStrip;
    var s := Run(PLAIN, START, [o0, o1, o2, o3, o4]).state;
    assert s == w5.state;
    assert IsLocked(s, "c1");
  }

  lemma StripPlain()
    ensures PyText.Strip("ann") == "ann" && PyText.Strip("bob") == "bob" && PyText.Strip("is 1.73") != ""
  {
    PyText.StripKeepsTrimmed("ann");
    PyText.StripKeepsTrimmed("bob");
    PyText.StripKeepsTrimmed("is 1.73");
  }

  lemma RunNext(env: Naming, w: World, op: Op, rest: seq<Op>)
    ensures Run(env, w, [op] + rest) == Run(env, After(env, w, op), rest)
  {
    assert ([op] + rest)[1..] == rest;
  }

  lemma RunFive(env: Naming, o0: Op, o1: Op, o2: Op, o3: Op, o4: Op)
    ensures Run(env, START, [o0, o1, o2, o3, o4])
         == After(env, After(env, After(env, After(env, After(env, START, o0), o1), o2), o3), o4)
  {
    hide After;
    var w1 := After(env, START, o0);
    var w2 := After(env, w1, o1);
    var w3 := After(env, w2, o2);
    assert [o0] + ([o1] + ([o2] + ([o3] + [o4]))) == [o0, o1, o2, o3, o4];
    RunNext(env, START, o0, [o1] + ([o2] + ([o3] + [o4])));
    RunNext(env, w1, o1, [o2] + ([o3] + [o4]));
    RunNext(env, w2, o2, [o3] + [o4]);
    RunNext(env, w3, o3, [o4]);
    RunNext(env, After(env, w3, o3), o4, []);
    assert [o4] + [] == [o4];
  }
}
