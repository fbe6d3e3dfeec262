/**
 Verifiers racing on one receipt ledger. Every service instance of a ledger path shares one
 lock; between taking it and releasing it a verifier reads the whole ledger and then appends
 its redemption or refuses. Issued events are appended by signers outside that lock.
 */
module ReceiptRaces {
  import opened Outcomes
  import opened CanonicalJson
  import opened Receipts

  /** Where one verifier stands inside redeem_once. */
  datatype Phase =
    | Waiting                        // checks passed, lock not yet taken
    | Holding                        // lock taken
    | Looked(prior: Option<Event>)   // ledger read
    | Spent                          // redemption appended, lock still held
    | Accepted
    | Refused

  /** Verifier t tries to record attempts[t]. */
  datatype State = State(events: seq<Event>, owner: Option<nat>, phases: seq<Phase>)

  datatype Action =
    | Acquire(t: nat)
    | Look(t: nat)
    | Decide(t: nat)
    | Release(t: nat)
    | Sign(receiptId: Json, receipt: seq<Member>)

  /** One step; an action that is not enabled changes nothing. */
  function Step(attempts: seq<Event>, s: State, a: Action): (n: State)
    requires |attempts| == |s.phases|
    ensures |n.phases| == |s.phases|
  {
    match a
    case Sign(id, receipt) => s.(events := s.events + [Issued(id, receipt)])
    case Acquire(t) =>
      if t < |s.phases| && s.phases[t] == Waiting && s.owner.None? then
        s.(owner := Some(t), phases := s.phases[t := Holding])
      else s
    case Look(t) =>
      if t < |s.phases| && s.phases[t] == Holding && attempts[t].Redeemed? then
        s.(phases := s.phases[t := Looked(FindRedemption(s.events, attempts[t].receiptId))])
      else s
    case Decide(t) =>
      if t < |s.phases| && s.phases[t].Looked? then
        if s.phases[t].prior.None? then s.(events := s.events + [attempts[t]], phases := s.phases[t := Spent])
        else s.(owner := None, phases := s.phases[t := Refused])
      else s
    case Release(t) =>
      if t < |s.phases| && s.phases[t] == Spent then s.(owner := None, phases := s.phases[t := Accepted])
      else s
  }

  function Run(attempts: seq<Event>, s: State, actions: seq<Action>): (r: State)
    requires |attempts| == |s.phases|
    ensures |r.phases| == |s.phases|
    decreases |actions|
  {
    if actions == [] then s else Run(attempts, Step(attempts, s, actions[0]), actions[1..])
  }

  /** How often an id has been redeemed. */
  function Redemptions(events: seq<Event>, id: Json): nat {
    if events == [] then 0
    else (if events[0].Redeemed? && events[0].receiptId == id then 1 else 0) + Redemptions(events[1..], id)
  }

  /** The verifiers of an id whose call has succeeded. */
  function Winners(attempts: seq<Event>, s: State, id: Json): set<nat>
    requires |attempts| == |s.phases|
  {
    set t: nat | t < |s.phases| && s.phases[t] in {Spent, Accepted} && attempts[t].receiptId == id
  }

  predicate AllRedemptions(attempts: seq<Event>) {
    forall t | 0 <= t < |attempts| :: attempts[t].Redeemed?
  }

  predicate Starts(s: State) {
    && s.owner.None?
    && (forall t | 0 <= t < |s.phases| :: s.phases[t] == Waiting)
  }

  lemma {:induction false} RedemptionsAppend(events: seq<Event>, e: Event, id: Json)
    ensures Redemptions(events + [e], id)
         == Redemptions(events, id) + if e.Redeemed? && e.receiptId == id then 1 else 0
  {
    if events == [] {
      assert events + [e] == [e];
    } else {
      assert (events + [e])[1..] == events[1..] + [e];
      RedemptionsAppend(events[1..], e, id);
    }
  }

  lemma {:induction false} FoundMeansRedeemed(events: seq<Event>, id: Json)
    ensures FindRedemption(events, id).Some? <==> Redemptions(events, id) >= 1
  {
    if events != [] {
      FoundMeansRedeemed(events[1..], id);
    }
  }

  /** The lock discipline and what each verifier may rely on. */
  ghost predicate LockInv(attempts: seq<Event>, s: State) {
    && |attempts| == |s.phases| && AllRedemptions(attempts)
    && (forall t | 0 <= t < |s.phases| :: s.phases[t] in {Holding, Spent} || s.phases[t].Looked? ==> s.owner == Some(t))
    && (forall t | 0 <= t < |s.phases| && s.phases[t].Looked? ::
          s.phases[t].prior.Some? <==> Redemptions(s.events, attempts[t].receiptId) >= 1)
    && (forall t | 0 <= t < |s.phases| && s.phases[t].Refused? :: Redemptions(s.events, attempts[t].receiptId) >= 1)
  }

  /** At most one redemption an id, and as many new ones as winners. */
  ghost predicate SpendInv(attempts: seq<Event>, initial: seq<Event>, s: State) {
    && |attempts| == |s.phases|
    && (forall id :: Redemptions(s.events, id) <= 1)
    && (forall id :: Redemptions(s.events, id) == Redemptions(initial, id) + |Winners(attempts, s, id)|)
  }

  lemma StepKeepsLock(attempts: seq<Event>, s: State, a: Action)
    requires LockInv(attempts, s)
    ensures LockInv(attempts, Step(attempts, s, a))
  {
    hide FindRedemption, Redemptions;
    var n := Step(attempts, s, a);
    if n.events != s.events {
      var e := n.events[|s.events|];
      assert n.events == s.events + [e];
      forall t | 0 <= t < |s.phases|
        ensures Redemptions(n.events, attempts[t].receiptId) >= Redemptions(s.events, attempts[t].receiptId)
        ensures a.Sign? ==> Redemptions(n.events, attempts[t].receiptId) == Redemptions(s.events, attempts[t].receiptId)
      {
        RedemptionsAppend(s.events, e, attempts[t].receiptId);
      }
    }
    if a.Look? && a.t < |s.phases| {
      FoundMeansRedeemed(s.events, attempts[a.t].receiptId);
    }
  }

  /** The action is the append of a redemption of this id. */
  predicate Spends(attempts: seq<Event>, s: State, a: Action, id: Json)
    requires |attempts| == |s.phases|
  {
    a.Decide? && a.t < |s.phases| && s.phases[a.t] == Looked(None) && attempts[a.t].receiptId == id
  }

  lemma WinnersStep(attempts: seq<Event>, s: State, a: Action, id: Json)
    requires |attempts| == |s.phases|
    ensures |Winners(attempts, Step(attempts, s, a), id)|
         == |Winners(attempts, s, id)| + if Spends(attempts, s, a, id) then 1 else 0
  {
    hide Step;
    var was, now := Winners(attempts, s, id), Winners(attempts, Step(attempts, s, a), id);
    forall t | 0 <= t < |s.phases|
      ensures t in now <==> t in was || (Spends(attempts, s, a, id) && t == a.t)
    {
      WinsStep(attempts, s, a, t);
    }
    if Spends(attempts, s, a, id) {
      assert now == was + {a.t} && a.t !in was;
    } else {
      assert now == was;
    }
  }

  lemma WinsStep(attempts: seq<Event>, s: State, a: Action, t: nat)
    requires |attempts| == |s.phases| && t < |s.phases|
    ensures Step(attempts, s, a).phases[t] in {Spent, Accepted}
       <==> s.phases[t] in {Spent, Accepted} || (a == Decide(t) && s.phases[t] == Looked(None))
  {
    hide FindRedemption;
  }

  lemma RedemptionsStep(attempts: seq<Event>, s: State, a: Action, id: Json)
    requires |attempts| == |s.phases| && AllRedemptions(attempts)
    ensures Redemptions(Step(attempts, s, a).events, id)
         == Redemptions(s.events, id) + if Spends(attempts, s, a, id) then 1 else 0
  {
    hide FindRedemption, Redemptions;
    if a.Sign? {
      RedemptionsAppend(s.events, Issued(a.receiptId, a.receipt), id);
    } else if a.Decide? && a.t < |s.phases| {
      RedemptionsAppend(s.events, attempts[a.t], id);
    }
  }

  lemma StepKeepsSpend(attempts: seq<Event>, initial: seq<Event>, s: State, a: Action)
    requires LockInv(attempts, s) && SpendInv(attempts, initial, s)
    ensures SpendInv(attempts, initial, Step(attempts, s, a))
  {
    hide FindRedemption, Redemptions, Winners, Step;
    forall id
      ensures Redemptions(Step(attempts, s, a).events, id) <= 1
      ensures Redemptions(Step(attempts, s, a).events, id)
           == Redemptions(initial, id) + |Winners(attempts, Step(attempts, s, a), id)|
    {
      WinnersStep(attempts, s, a, id);
      RedemptionsStep(attempts, s, a, id);
    }
  }

  lemma {:induction false} RunKeepsInvariants(attempts: seq<Event>, initial: seq<Event>, s: State, actions: seq<Action>)
    requires LockInv(attempts, s) && SpendInv(attempts, initial, s)
    ensures LockInv(attempts, Run(attempts, s, actions)) && SpendInv(attempts, initial, Run(attempts, s, actions))
    decreases |actions|
  {
    if actions != [] {
      StepKeepsLock(attempts, s, actions[0]);
      StepKeepsSpend(attempts, initial, s, actions[0]);
      RunKeepsInvariants(attempts, initial, Step(attempts, s, actions[0]), actions[1..]);
    }
  }

  /**
   Single use in every interleaving: starting from a ledger that redeems no id twice, no id is
   ever redeemed twice; the redemptions added are exactly as many as the accepted calls, so an
   id has at most one accepted call; and a call is refused as a replay only when its id is redeemed.
   */
  lemma SingleUse(attempts: seq<Event>, s: State, actions: seq<Action>)
    requires |attempts| == |s.phases| && AllRedemptions(attempts) && Starts(s)
    requires forall id :: Redemptions(s.events, id) <= 1
    ensures var end := Run(attempts, s, actions);
            && (forall id :: Redemptions(end.events, id) <= 1)
            && (forall id :: Redemptions(end.events, id) == Redemptions(s.events, id) + |Winners(attempts, end, id)|)
            && (forall id :: |Winners(attempts, end, id)| <= 1)
            && (forall t | 0 <= t < |attempts| && end.phases[t].Refused? ::
                  Redemptions(end.events, attempts[t].receiptId) == 1)
  {
    forall id
      ensures Winners(attempts, s, id) == {}
    {
    }
    RunKeepsInvariants(attempts, s.events, s, actions);
  }

  /**
   No lost approval: once every verifier has finished, an id that was unspent at the start and
   was attempted has exactly one accepted call.
   */
  lemma SomeAttemptIsAccepted(attempts: seq<Event>, s: State, actions: seq<Action>, t: nat)
    requires |attempts| == |s.phases| && AllRedemptions(attempts) && Starts(s) && t < |attempts|
    requires forall id :: Redemptions(s.events, id) <= 1
    requires Redemptions(s.events, attempts[t].receiptId) == 0
    requires forall u | 0 <= u < |attempts| :: Run(attempts, s, actions).phases[u] in {Accepted, Refused}
    ensures |Winners(attempts, Run(attempts, s, actions), attempts[t].receiptId)| == 1
  {
    SingleUse(attempts, s, actions);
    var end := Run(attempts, s, actions);
    var winners := Winners(attempts, end, attempts[t].receiptId);
    if end.phases[t].Accepted? {
      assert t in winners;
    }
  }

  /** A waiting verifier, run alone to its end while nobody holds the lock, spends an unspent id. */
  lemma LoneAttemptIsAccepted(attempts: seq<Event>, s: State, t: nat)
    requires |attempts| == |s.phases| && AllRedemptions(attempts) && t < |attempts|
    requires s.owner.None? && s.phases[t] == Waiting
    ensures var end := Run(attempts, s, [Acquire(t), Look(t), Decide(t), Release(t)]);
            if Redemptions(s.events, attempts[t].receiptId) == 0
            then end.phases[t] == Accepted && end.events == s.events + [attempts[t]]
            else end.phases[t] == Refused && end.events == s.events
  {
    FoundMeansRedeemed(s.events, attempts[t].receiptId);
    var s1 := Step(attempts, s, Acquire(t));
    var s2 := Step(attempts, s1, Look(t));
    var s3 := Step(attempts, s2, Decide(t));
    var s4 := Step(attempts, s3, Release(t));
    var actions := [Acquire(t), Look(t), Decide(t), Release(t)];
    assert actions[1..] == [Look(t), Decide(t), Release(t)];
    assert actions[1..][1..] == [Decide(t), Release(t)];
    assert actions[1..][1..][1..] == [Release(t)];
    assert Run(attempts, s4, []) == s4;
    assert Run(attempts, s3, [Release(t)]) == s4;
    assert Run(attempts, s2, [Decide(t), Release(t)]) == s4;
    assert Run(attempts, s1, [Look(t), Decide(t), Release(t)]) == s4;
  }
}
