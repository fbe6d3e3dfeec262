/**
 The claim lifecycle: a transition table with four-eyes and a named human lock, over an
 append-only ledger that is replayed to rebuild the state.
 */
module Claims {
  import opened Outcomes
  import PyText

  datatype Kind = KpiMetric | SpendDecision | ClosePeriod
  datatype Status = Draft | Submitted | UnderReview | Approved | Locked | Rejected | Withdrawn
  datatype Action = Submit | StartReview | Approve | Reject | Lock | Withdraw

  /** What is claimed, by whom, on which evidence: fixed when the claim is opened. */
  datatype Content = Content(
    kind: Kind, subject: string, statement: string, assertedValue: string, unit: Option<string>,
    windowStart: Option<string>, windowEnd: Option<string>, evidence: map<string, string>, openedBy: string)

  datatype Claim = Claim(
    id: string, content: Content, openedAt: int, status: Status, updatedAt: int, lockedBy: Option<string>)

  datatype Transition = Transition(
    id: string, action: Action, from: Status, target: Status, actor: string, at: int,
    note: Option<string>, confirmedBy: Option<string>)

  /** One line of the ledger. */
  datatype Record = Opened(claim: Claim) | Moved(transition: Transition)

  datatype Refusal =
    | AlreadyExists | EmptyStatement | UnknownClaim | NotAllowed | NoActor | FourEyes | NoConfirmer
    | ConfirmerIsActor | NothingRequested | NotLocked(ids: seq<string>)

  /** What the engine does not compute itself: lower-casing, and the hash behind claim ids. */
  datatype Naming = Naming(lower: string -> string, idOf: (Kind, string, string, string) -> string)

  datatype State = State(claims: map<string, Claim>, history: map<string, seq<Transition>>)

  datatype Op =
    | Open(content: Content, now: int)
    | Apply(id: string, action: Action, actor: string, now: int, note: Option<string>, confirmedBy: Option<string>)

  const EMPTY := State(map[], map[])

  /** The transition table. */
  function Target(status: Status, action: Action): Option<Status> {
    match (status, action)
    case (Draft, Submit) => Some(Submitted)
    case (Draft, Withdraw) => Some(Withdrawn)
    case (Submitted, StartReview) => Some(UnderReview)
    case (Submitted, Withdraw) => Some(Withdrawn)
    case (UnderReview, Approve) => Some(Approved)
    case (UnderReview, Reject) => Some(Rejected)
    case (UnderReview, Withdraw) => Some(Withdrawn)
    case (Approved, Lock) => Some(Locked)
    case _ => None
  }

  /** No transition leaves these. */
  predicate IsTerminal(status: Status) {
    status.Locked? || status.Rejected? || status.Withdrawn?
  }

  predicate IsBlankName(name: string) {
    PyText.Strip(name) == ""
  }

  /** Equal after trimming and case folding. */
  predicate SamePerson(env: Naming, a: string, b: string) {
    env.lower(PyText.Strip(a)) == env.lower(PyText.Strip(b))
  }

  function ClaimId(env: Naming, c: Content): string {
    env.idOf(c.kind, c.subject, if c.windowStart.Some? then c.windowStart.value else "", c.openedBy)
  }

  function Advance(claim: Claim, status: Status, at: int, lockedBy: Option<string>): Claim {
    claim.(status := status, updatedAt := at, lockedBy := lockedBy)
  }

  /* ---------- one operation of the live engine ---------- */

  /** Why an operation is refused, if it is: the first check that fails. */
  function Refused(env: Naming, s: State, op: Op): Option<Refusal> {
    match op
    case Open(content, _) =>
      if ClaimId(env, content) in s.claims then Some(AlreadyExists)
      else if IsBlankName(content.statement) then Some(EmptyStatement)
      else None
    case Apply(id, action, actor, _, _, confirmedBy) =>
      if id !in s.claims then Some(UnknownClaim)
      else
        var claim := s.claims[id];
        if Target(claim.status, action).None? then Some(NotAllowed)
        else if IsBlankName(actor) then Some(NoActor)
        else if (action.Approve? || action.Lock?) && SamePerson(env, actor, claim.content.openedBy) then Some(FourEyes)
        else if action.Lock? && (confirmedBy.None? || IsBlankName(confirmedBy.value)) then Some(NoConfirmer)
        else if action.Lock? && SamePerson(env, confirmedBy.value, actor) then Some(ConfirmerIsActor)
        else None
  }

  /** The ledger line of an operation that is not refused. */
  function Written(env: Naming, s: State, op: Op): Record
    requires Refused(env, s, op).None?
  {
    match op
    case Open(content, now) => Opened(Claim(ClaimId(env, content), content, now, Draft, now, None))
    case Apply(id, action, actor, now, note, confirmedBy) =>
      var status := s.claims[id].status;
      Moved(Transition(id, action, status, Target(status, action).value, actor, now, note,
                       if action.Lock? then confirmedBy else None))
  }

  /** The live state after an operation that is not refused. */
  function Step(env: Naming, s: State, op: Op): State
    requires Refused(env, s, op).None?
  {
    match op
    case Open(content, now) =>
      var claim := Written(env, s, op).claim;
      State(s.claims[claim.id := claim], s.history[claim.id := []])
    case Apply(id, action, actor, now, note, confirmedBy) =>
      var claim := s.claims[id];
      var moved := Advance(claim, Target(claim.status, action).value, now,
                           if action.Lock? then confirmedBy else claim.lockedBy);
      State(s.claims[id := moved], s.history[id := HistoryOf(s, id) + [Written(env, s, op).transition]])
  }

  function HistoryOf(s: State, id: string): seq<Transition> {
    if id in s.history then s.history[id] else []
  }

  /* ---------- replay ---------- */

  function ReplayOne(s: State, record: Record): State {
    match record
    case Opened(claim) => State(s.claims[claim.id := claim], s.history[claim.id := HistoryOf(s, claim.id)])
    case Moved(t) =>
      var history := s.history[t.id := HistoryOf(s, t.id) + [t]];
      if t.id !in s.claims then State(s.claims, history)
      else
        var current := s.claims[t.id];
        State(s.claims[t.id := Advance(current, t.target, t.at,
                                       if t.action.Lock? then t.confirmedBy else current.lockedBy)],
              history)
  }

  function Replay(records: seq<Record>): State {
    if records == [] then EMPTY
    else ReplayOne(Replay(records[..|records| - 1]), records[|records| - 1])
  }

  /* ---------- export ---------- */

  datatype Package = Package(claims: seq<Claim>, history: map<string, seq<Transition>>)

  predicate IsLocked(s: State, id: string) {
    id in s.claims && s.claims[id].status.Locked?
  }

  predicate AllLocked(s: State, ids: seq<string>) {
    forall k | 0 <= k < |ids| :: IsLocked(s, ids[k])
  }

  /** The whole of an export: every requested claim in order, with its history. */
  function Packed(s: State, ids: seq<string>): Package
    requires AllLocked(s, ids)
  {
    Package(seq(|ids|, i requires 0 <= i < |ids| => s.claims[ids[i]]), map id | id in ids :: HistoryOf(s, id))
  }

  /** The requested claims that stop an export, in the order requested. */
  function Unlocked(s: State, ids: seq<string>): (r: seq<string>)
    ensures r == [] <==> AllLocked(s, ids)
  {
    if ids == [] then []
    else if IsLocked(s, ids[0]) then
      assert AllLocked(s, ids[1..]) ==> AllLocked(s, ids) by {
        assert forall k | 0 < k < |ids| :: ids[k] == ids[1..][k - 1];
      }
      Unlocked(s, ids[1..])
    else [ids[0]] + Unlocked(s, ids[1..])
  }

  function Exported(s: State, ids: seq<string>): Result<Package, Refusal> {
    if ids == [] then Err(NothingRequested)
    else if Unlocked(s, ids) != [] then Err(NotLocked(Unlocked(s, ids)))
    else Ok(Packed(s, ids))
  }

  lemma UnlockedNext(s: State, ids: seq<string>, id: string)
    ensures Unlocked(s, ids + [id]) == Unlocked(s, ids) + if IsLocked(s, id) then [] else [id]
    decreases |ids|
  {
    if ids != [] {
      assert (ids + [id])[1..] == ids[1..] + [id];
      UnlockedNext(s, ids[1..], id);
    }
  }

  lemma ReplayNext(records: seq<Record>, record: Record)
    ensures Replay(records + [record]) == ReplayOne(Replay(records), record)
  {
    assert (records + [record])[..|records|] == records;
  }

  /* ---------- the engine ---------- */

  /** The ledger file: engines come and go over it. */
  class Ledger {
    var records: seq<Record>

    constructor ()
      ensures records == []
    {
      records := [];
    }

    method Append(record: Record)
      modifies this
      ensures records == old(records) + [record]
    {
      records := records + [record];
    }
  }

  class ClaimEngine {
    const env: Naming
    const ledger: Ledger
    var claims: map<string, Claim>
    var history: map<string, seq<Transition>>

    ghost function Now(): State
      reads this
    {
      State(claims, history)
    }

    constructor (env: Naming, ledger: Ledger)
      ensures this.env == env && this.ledger == ledger && Now() == EMPTY
    {
      this.env, this.ledger := env, ledger;
      claims, history := map[], map[];
    }

    /** Rebuild an engine from the ledger. */
    static method Load(env: Naming, ledger: Ledger) returns (engine: ClaimEngine)
      ensures fresh(engine) && engine.env == env && engine.ledger == ledger
      ensures engine.Now() == Replay(ledger.records)
    {
      engine := new ClaimEngine(env, ledger);
      for i := 0 to |ledger.records|
        invariant engine.Now() == Replay(ledger.records[..i])
      {
        ReplayNext(ledger.records[..i], ledger.records[i]);
        assert ledger.records[..i + 1] == ledger.records[..i] + [ledger.records[i]];
        engine.ReplayRecord(ledger.records[i]);
      }
      assert ledger.records[..|ledger.records|] == ledger.records;
    }

    method ReplayRecord(record: Record)
      modifies this`claims, this`history
      ensures Now() == ReplayOne(old(Now()), record)
    {
      match record {
        case Opened(claim) =>
          claims := claims[claim.id := claim];
          if claim.id !in history {
            history := history[claim.id := []];
          }
          assert history == old(history)[claim.id := HistoryOf(old(Now()), claim.id)];
        case Moved(t) =>
          if t.id !in history {
            history := history[t.id := []];
          }
          history := history[t.id := history[t.id] + [t]];
          assert history == old(history)[t.id := HistoryOf(old(Now()), t.id) + [t]];
          if t.id in claims {
            var current := claims[t.id];
            var lockedBy := current.lockedBy;
            if t.action.Lock? {
              lockedBy := t.confirmedBy;
            }
            claims := claims[t.id := Advance(current, t.target, t.at, lockedBy)];
          }
      }
    }

    method Open(content: Content, now: int) returns (r: Result<Claim, Refusal>)
      modifies this`claims, this`history, ledger
      ensures
        var op := Op.Open(content, now);
        match Refused(env, old(Now()), op) {
          case Some(refusal) => r == Err(refusal) && Now() == old(Now()) && ledger.records == old(ledger.records)
          case None =>
            && Now() == Step(env, old(Now()), op)
            && ledger.records == old(ledger.records) + [Written(env, old(Now()), op)]
            && r == Ok(Written(env, old(Now()), op).claim)
        }
    {
      var id := ClaimId(env, content);
      if id in claims {
        return Err(AlreadyExists);
      }
      if PyText.Strip(content.statement) == "" {
        return Err(EmptyStatement);
      }
      var claim := Claim(id, content, now, Draft, now, None);
      ledger.Append(Opened(claim));
      claims := claims[id := claim];
      history := history[id := []];
      return Ok(claim);
    }

    method Apply(id: string, action: Action, actor: string, now: int, note: Option<string>, confirmedBy: Option<string>)
      returns (r: Result<Claim, Refusal>)
      requires claims.Keys <= history.Keys
      modifies this`claims, this`history, ledger
      ensures
        var op := Op.Apply(id, action, actor, now, note, confirmedBy);
        match Refused(env, old(Now()), op) {
          case Some(refusal) => r == Err(refusal) && Now() == old(Now()) && ledger.records == old(ledger.records)
          case None =>
            && Now() == Step(env, old(Now()), op)
            && ledger.records == old(ledger.records) + [Written(env, old(Now()), op)]
            && r == Ok(claims[id])
        }
    {
      if id !in claims {
        return Err(UnknownClaim);
      }
      var claim := claims[id];
      var target := Target(claim.status, action);
      if target.None? {
        return Err(NotAllowed);
      }
      if PyText.Strip(actor) == "" {
        return Err(NoActor);
      }
      if (action == Approve || action == Lock) && SamePerson(env, actor, claim.content.openedBy) {
        return Err(FourEyes);
      }
      var lockedBy := claim.lockedBy;
      var confirmer: Option<string> := None;
      if action == Lock {
        if confirmedBy.None? || PyText.Strip(confirmedBy.value) == "" {
          return Err(NoConfirmer);
        }
        if SamePerson(env, confirmedBy.value, actor) {
          return Err(ConfirmerIsActor);
        }
        lockedBy, confirmer := confirmedBy, confirmedBy;
      }
      var transition := Transition(id, action, claim.status, target.value, actor, now, note, confirmer);
      ledger.Append(Moved(transition));
      claims := claims[id := Advance(claim, target.value, now, lockedBy)];
      history := history[id := history[id] + [transition]];
      return Ok(claims[id]);
    }

    /** All requested claims locked, or nothing. */
    method Export(ids: seq<string>) returns (r: Result<Package, Refusal>)
      ensures r == Exported(Now(), ids)
    {
      hide Unlocked;
      if ids == [] {
        return Err(NothingRequested);
      }
      var unlocked := FindUnlocked(ids);
      if unlocked != [] {
        return Err(NotLocked(unlocked));
      }
      var package := Pack(ids);
      return Ok(package);
    }

    method FindUnlocked(ids: seq<string>) returns (unlocked: seq<string>)
      ensures unlocked == Unlocked(Now(), ids)
    {
      unlocked := [];
      for i := 0 to |ids|
        invariant unlocked == Unlocked(Now(), ids[..i])
      {
        UnlockedNext(Now(), ids[..i], ids[i]);
        assert ids[..i + 1] == ids[..i] + [ids[i]];
        if ids[i] !in claims || claims[ids[i]].status != Locked {
          unlocked := unlocked + [ids[i]];
        }
      }
      assert ids[..|ids|] == ids;
    }

    method Pack(ids: seq<string>) returns (package: Package)
      requires AllLocked(Now(), ids)
      ensures package == Packed(Now(), ids)
    {
      var packed: seq<Claim> := [];
      var trail: map<string, seq<Transition>> := map[];
      for i := 0 to |ids|
        invariant |packed| == i && forall k | 0 <= k < i :: packed[k] == claims[ids[k]]
        invariant trail == map id | id in ids[..i] :: HistoryOf(Now(), id)
      {
        packed := packed + [claims[ids[i]]];
        trail := trail[ids[i] := if ids[i] in history then history[ids[i]] else []];
        assert ids[..i + 1] == ids[..i] + [ids[i]];
      }
      assert ids[..|ids|] == ids;
      package := Package(packed, trail);
      assert packed == Packed(Now(), ids).claims && trail == Packed(Now(), ids).history;
    }
  }
}
