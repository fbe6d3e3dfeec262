/**
 What the operations of the claim engine do, spelled out: the eight moves of the lifecycle, when an
 operation is refused and for which reason, what an accepted one leaves behind, what loading makes
 of any ledger, and what an export holds.
 */
module ClaimLaws {
  import opened Outcomes
  import opened Claims
  import opened ClaimRuns
  import PyText

  /* ---------- the lifecycle ---------- */

  /** Every move there is. */
  const MOVES: set<(Status, Action, Status)> := {
    (Draft, Submit, Submitted), (Draft, Withdraw, Withdrawn),
    (Submitted, StartReview, UnderReview), (Submitted, Withdraw, Withdrawn),
    (UnderReview, Approve, Approved), (UnderReview, Reject, Rejected), (UnderReview, Withdraw, Withdrawn),
    (Approved, Lock, Locked)}

  /** Some move takes this action from this status. */
  predicate CanMove(status: Status, action: Action) {
    exists target :: (status, action, target) in MOVES
  }

  lemma MoveIff(status: Status, action: Action, target: Status)
    ensures Target(status, action) == Some(target) <==> (status, action, target) in MOVES
  {
  }

  lemma CanMoveIff(status: Status, action: Action)
    ensures Target(status, action).Some? <==> CanMove(status, action)
  {
    if Target(status, action).Some? {
      assert (status, action, Target(status, action).value) in MOVES;
    }
  }

  /** The terminal statuses are Locked, Rejected and Withdrawn, and those are the ones no action leaves. */
  lemma TerminalIff(status: Status)
    ensures IsTerminal(status) <==> status in {Locked, Rejected, Withdrawn}
    ensures IsTerminal(status) <==> forall action :: !CanMove(status, action)
  {
    if status.Draft? || status.Submitted? || status.UnderReview? {
      var target := Withdrawn;
      assert (status, Withdraw, target) in MOVES;
    } else if status.Approved? {
      var target := Locked;
      assert (status, Lock, target) in MOVES;
    }
    if forall action :: !CanMove(status, action) {
      assert !CanMove(status, Withdraw) && !CanMove(status, Lock);
    }
  }

  /* ---------- names ---------- */

  predicate HasInk(name: string) {
    exists k | 0 <= k < |name| :: !PyText.IsSpace(name[k])
  }

  lemma BlankIff(name: string)
    ensures IsBlankName(name) <==> !HasInk(name)
  {
    var s := PyText.Strip(name);
    var a, b := PyText.StripParts(name);
    if s != "" {
      assert name[|a|] == s[0];
    }
  }

  /* ---------- refusals ---------- */

  /**
   Why a move is refused: exactly one reason, the first that holds. Four eyes are asked of approval
   and lock, a confirmer - named, and another person than the actor - of the lock alone. Two names
   are one person's when they fold alike once trimmed.
   */
  lemma MoveRefusedAs(env: Naming, s: State, id: string, action: Action, actor: string, now: int,
                      note: Option<string>, confirmer: Option<string>)
    ensures
      var refusal := Refused(env, s, Op.Apply(id, action, actor, now, note, confirmer));
      var fold := (name: string) => env.lower(PyText.Strip(name));
      if id !in s.claims then refusal == Some(UnknownClaim)
      else if !CanMove(s.claims[id].status, action) then refusal == Some(NotAllowed)
      else if !HasInk(actor) then refusal == Some(NoActor)
      else if action in {Approve, Lock} && fold(actor) == fold(s.claims[id].content.openedBy) then
        refusal == Some(FourEyes)
      else if action.Lock? && (confirmer.None? || !HasInk(confirmer.value)) then refusal == Some(NoConfirmer)
      else if action.Lock? && fold(confirmer.value) == fold(actor) then refusal == Some(ConfirmerIsActor)
      else refusal == None
  {
    hide HasInk, CanMove, IsBlankName;
    BlankIff(actor);
    if confirmer.Some? {
      BlankIff(confirmer.value);
    }
    if id in s.claims {
      CanMoveIff(s.claims[id].status, action);
    }
  }

  /** A claim is opened exactly when its identity is new and it states something. */
  lemma OpeningRefusedAs(env: Naming, s: State, content: Content, now: int)
    ensures
      var refusal := Refused(env, s, Op.Open(content, now));
      var id := env.idOf(content.kind, content.subject, content.windowStart.UnwrapOr(""), content.openedBy);
      if id in s.claims then refusal == Some(AlreadyExists)
      else if !HasInk(content.statement) then refusal == Some(EmptyStatement)
      else refusal == None
  {
    BlankIff(content.statement);
  }

  /* ---------- accepted operations ---------- */

  /** No other claim and no other history changes. */
  ghost predicate ChangesOnly(a: State, b: State, id: string) {
    && b.claims.Keys == a.claims.Keys + {id} && b.history.Keys == a.history.Keys + {id}
    && forall other | other != id ::
         && (other in a.claims ==> b.claims[other] == a.claims[other])
         && (other in a.history ==> b.history[other] == a.history[other])
  }

  /**
   An accepted move takes the claim along one of the eight moves, keeps its content and when it was
   opened, notes the time, and notes the confirmer at the lock only. Its history, and the ledger,
   get one line that says so.
   */
  lemma MoveMeans(env: Naming, s: State, id: string, action: Action, actor: string, now: int,
                  note: Option<string>, confirmer: Option<string>)
    requires Refused(env, s, Op.Apply(id, action, actor, now, note, confirmer)).None?
    ensures id in s.claims
    ensures
      var op := Op.Apply(id, action, actor, now, note, confirmer);
      var next, was := Step(env, s, op), s.claims[id];
      && ChangesOnly(s, next, id)
      && var claim := next.claims[id];
         && (was.status, action, claim.status) in MOVES
         && claim.id == was.id && claim.content == was.content && claim.openedAt == was.openedAt
         && claim.updatedAt == now && claim.lockedBy == (if action.Lock? then confirmer else was.lockedBy)
         && var line := Transition(id, action, was.status, claim.status, actor, now, note,
                                   if action.Lock? then confirmer else None);
            && Written(env, s, op) == Moved(line)
            && next.history[id] == (if id in s.history then s.history[id] else []) + [line]
  {
    hide IsBlankName, SamePerson;
    MoveIff(s.claims[id].status, action, Target(s.claims[id].status, action).value);
  }

  /** An opened claim is a draft of the content, opened and updated now, with an empty history. */
  lemma OpeningMeans(env: Naming, s: State, content: Content, now: int)
    requires Refused(env, s, Op.Open(content, now)).None?
    ensures
      var op := Op.Open(content, now);
      var id := env.idOf(content.kind, content.subject, content.windowStart.UnwrapOr(""), content.openedBy);
      var next, claim := Step(env, s, op), Claim(id, content, now, Draft, now, None);
      && ChangesOnly(s, next, id) && next.claims[id] == claim && next.history[id] == []
      && Written(env, s, op) == Opened(claim)
  {
    hide IsBlankName;
  }

  /* ---------- how a claim ended ---------- */

  /** What the last line of its history says of a claim in this status. */
  predicate EndsAs(status: Status, last: Transition) {
    match status
    case Draft => false
    case Submitted => last.action.Submit? && last.from.Draft?
    case UnderReview => last.action.StartReview? && last.from.Submitted?
    case Approved => last.action.Approve? && last.from.UnderReview?
    case Locked => last.action.Lock? && last.from.Approved?
    case Rejected => last.action.Reject? && last.from.UnderReview?
    case Withdrawn => last.action.Withdraw? && last.from in {Draft, Submitted, UnderReview}
  }

  /**
   In every reachable state the last line of a claim's history is the move that took it to its
   status: a rejected claim was rejected in review, a withdrawn one withdrawn before approval.
   */
  lemma StatusMeansMove(env: Naming, ops: seq<Op>, id: string)
    ensures
      var s := Run(env, START, ops).state;
      id in s.claims ==>
        var status, trail := s.claims[id].status, HistoryOf(s, id);
        && (status.Draft? <==> trail == [])
        && (trail != [] ==> EndsAs(status, trail[|trail| - 1]) && trail[|trail| - 1].target == status)
  {
    hide IsConsistent, EndsAs, Run, Replay;
    StartIsSound(env);
    RunKeepsSound(env, START, ops);
    var s := Run(env, START, ops).state;
    if id in s.claims {
      ConsistentEnds(env, id, s.claims[id], s.history[id]);
    }
  }

  lemma ConsistentEnds(env: Naming, id: string, claim: Claim, trail: seq<Transition>)
    requires IsConsistent(env, id, claim, trail)
    ensures claim.status.Draft? <==> trail == []
    ensures trail != [] ==>
      EndsAs(claim.status, trail[|trail| - 1]) && trail[|trail| - 1].target == claim.status
  {
    TrailEnds(env, id, claim.content.openedBy, trail, claim.status);
    if trail != [] {
      var last := trail[|trail| - 1];
      MoveIff(last.from, last.action, last.target);
    }
  }

  /* ---------- replay ---------- */

  predicate Opens(record: Record, id: string) {
    record.Opened? && record.claim.id == id
  }

  predicate Moves(record: Record, id: string) {
    record.Moved? && record.transition.id == id
  }

  predicate Locks(record: Record, id: string) {
    Moves(record, id) && record.transition.action.Lock?
  }

  predicate IsLastOpening(records: seq<Record>, k: int, id: string) {
    0 <= k < |records| && Opens(records[k], id) && forall j | k < j < |records| :: !Opens(records[j], id)
  }

  predicate IsLastMove(records: seq<Record>, m: int, id: string) {
    0 <= m < |records| && Moves(records[m], id) && forall j | m < j < |records| :: !Moves(records[j], id)
  }

  predicate IsLastLock(records: seq<Record>, m: int, id: string) {
    0 <= m < |records| && Locks(records[m], id) && forall j | m < j < |records| :: !Locks(records[j], id)
  }

  /** The transitions of a claim, in the order of the ledger. */
  function TrailOf(records: seq<Record>, id: string): seq<Transition> {
    if records == [] then []
    else (if Moves(records[0], id) then [records[0].transition] else []) + TrailOf(records[1..], id)
  }

  lemma {:induction false} TrailNext(records: seq<Record>, record: Record, id: string)
    ensures TrailOf(records + [record], id)
         == TrailOf(records, id) + if Moves(record, id) then [record.transition] else []
    decreases |records|
  {
    hide TrailOf;
    if records == [] {
      TrailStarts(record, [], id);
      assert records + [record] == [record] + [];
    } else {
      var first, rest := records[0], records[1..];
      TrailNext(rest, record, id);
      TrailStarts(first, rest, id);
      TrailStarts(first, rest + [record], id);
      assert records == [first] + rest && records + [record] == [first] + (rest + [record]);
    }
  }

  lemma TrailStarts(first: Record, rest: seq<Record>, id: string)
    ensures TrailOf([first] + rest, id) == (if Moves(first, id) then [first.transition] else []) + TrailOf(rest, id)
    ensures TrailOf([], id) == []
  {
    assert ([first] + rest)[1..] == rest;
  }

  /**
   What a claim is that line `k` gave its content: its status and time are those of the last
   transition after that line, its confirmer that of the last lock after it, or else the opened ones.
   */
  ghost predicate IsReplayed(records: seq<Record>, k: nat, id: string, claim: Claim)
    requires k < |records| && records[k].Opened?
  {
    var was := records[k].claim;
    && claim.id == was.id && claim.content == was.content && claim.openedAt == was.openedAt
    && IsMovedSince(records, k, id, was, claim.status, claim.updatedAt)
    && IsConfirmedSince(records, k, id, was, claim.lockedBy)
  }

  ghost predicate IsMovedSince(records: seq<Record>, k: nat, id: string, was: Claim, status: Status, at: int) {
    && ((forall m | k < m < |records| :: !Moves(records[m], id)) ==> status == was.status && at == was.updatedAt)
    && (forall m | k < m && IsLastMove(records, m, id) ::
          status == records[m].transition.target && at == records[m].transition.at)
  }

  ghost predicate IsConfirmedSince(records: seq<Record>, k: nat, id: string, was: Claim, lockedBy: Option<string>) {
    && ((forall m | k < m < |records| :: !Locks(records[m], id)) ==> lockedBy == was.lockedBy)
    && (forall m | k < m && IsLastLock(records, m, id) :: lockedBy == records[m].transition.confirmedBy)
  }

  /**
   Loading any ledger, whoever wrote it: a claim is there exactly when some line opens it; it is
   what the last such line says, moved by the transitions that follow; and its history is all its
   transitions in order, those before it was opened included.
   */
  lemma {:induction false} ReplayIs(records: seq<Record>, id: string)
    ensures var s := Replay(records);
      && HistoryOf(s, id) == TrailOf(records, id)
      && (id in s.claims <==> exists k :: 0 <= k < |records| && Opens(records[k], id))
      && forall k | IsLastOpening(records, k, id) :: id in s.claims && IsReplayed(records, k, id, s.claims[id])
    decreases |records|
  {
    if records != [] {
      hide IsReplayed;
      var front, last := records[..|records| - 1], records[|records| - 1];
      assert records == front + [last];
      ReplayIs(front, id);
      TrailNext(front, last, id);
      var s := Replay(records);
      assert s == ReplayOne(Replay(front), last);
      assert forall k | 0 <= k < |front| :: Opens(front[k], id) <==> Opens(records[k], id);
      assert id in s.claims <==> id in Replay(front).claims || Opens(last, id);
      forall k | IsLastOpening(records, k, id) ensures id in s.claims && IsReplayed(records, k, id, s.claims[id]) {
        if k < |front| {
          assert IsLastOpening(front, k, id);
          MovedOn(front, last, k, id, Replay(front).claims[id]);
        } else {
          JustOpened(records, id);
        }
      }
    }
  }

  lemma JustOpened(records: seq<Record>, id: string)
    requires records != [] && Opens(records[|records| - 1], id)
    ensures IsReplayed(records, |records| - 1, id, records[|records| - 1].claim)
  {
  }

  lemma MovedOn(front: seq<Record>, last: Record, k: nat, id: string, claim: Claim)
    requires k < |front| && front[k].Opened? && IsReplayed(front, k, id, claim) && !Opens(last, id)
    ensures
      var next := if Moves(last, id) then
                    Advance(claim, last.transition.target, last.transition.at,
                            if Locks(last, id) then last.transition.confirmedBy else claim.lockedBy)
                  else claim;
      IsReplayed(front + [last], k, id, next)
  {
    var records, was := front + [last], front[k].claim;
    assert records[k] == front[k];
    MovedSince(front, last, k, id, was, claim.status, claim.updatedAt);
    ConfirmedSince(front, last, k, id, was, claim.lockedBy);
  }

  lemma MovedSince(front: seq<Record>, last: Record, k: nat, id: string, was: Claim, status: Status, at: int)
    requires k < |front| && IsMovedSince(front, k, id, was, status, at)
    ensures
      if Moves(last, id) then
        IsMovedSince(front + [last], k, id, was, last.transition.target, last.transition.at)
      else IsMovedSince(front + [last], k, id, was, status, at)
  {
    var records, n := front + [last], |front|;
    assert records[n] == last && forall m | 0 <= m < n :: records[m] == front[m];
    if Moves(last, id) {
      assert forall m | IsLastMove(records, m, id) :: m == n;
    } else {
      assert forall m | IsLastMove(records, m, id) :: m < n && IsLastMove(front, m, id);
    }
  }

  lemma ConfirmedSince(front: seq<Record>, last: Record, k: nat, id: string, was: Claim, lockedBy: Option<string>)
    requires k < |front| && IsConfirmedSince(front, k, id, was, lockedBy)
    ensures IsConfirmedSince(front + [last], k, id, was,
                             if Locks(last, id) then last.transition.confirmedBy else lockedBy)
  {
    var records, n := front + [last], |front|;
    assert records[n] == last && forall m | 0 <= m < n :: records[m] == front[m];
    if Locks(last, id) {
      assert forall m | IsLastLock(records, m, id) :: m == n;
    } else {
      assert forall m | IsLastLock(records, m, id) :: m < n && IsLastLock(front, m, id);
    }
  }

  /* ---------- exports ---------- */

  /**
   An export is refused for an empty request, or lists exactly the requested claims that are not
   locked, in the order asked; else it holds each claim asked for, in its place, and its history.
   */
  lemma ExportIs(s: State, ids: seq<string>)
    ensures
      var r := Exported(s, ids);
      var locked := (id: string) => id in s.claims && s.claims[id].status == Locked;
      if ids == [] then r == Err(NothingRequested)
      else if exists k :: 0 <= k < |ids| && !locked(ids[k]) then
        r.Err? && r.error.NotLocked? && IsFiltered(s, ids, r.error.ids)
      else
        && r.Ok? && |r.value.claims| == |ids| && r.value.history.Keys == (set id | id in ids)
        && forall k | 0 <= k < |ids| ::
             r.value.claims[k] == s.claims[ids[k]] && r.value.history[ids[k]] == HistoryOf(s, ids[k])
  {
    UnlockedIs(s, ids);
  }

  /** The requested claims that are missing or not locked, in order. */
  predicate IsFiltered(s: State, ids: seq<string>, left: seq<string>)
    decreases |ids|
  {
    if ids == [] then left == []
    else if ids[0] in s.claims && s.claims[ids[0]].status == Locked then IsFiltered(s, ids[1..], left)
    else left != [] && left[0] == ids[0] && IsFiltered(s, ids[1..], left[1..])
  }

  lemma {:induction false} UnlockedIs(s: State, ids: seq<string>)
    ensures IsFiltered(s, ids, Unlocked(s, ids))
    decreases |ids|
  {
    if ids != [] {
      UnlockedIs(s, ids[1..]);
    }
  }
}
