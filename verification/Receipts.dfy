/**
 Tool-approval receipts: minting, verification of every binding, and single-use redemption
 over an append-only ledger. SHA-256 and HMAC are arbitrary functions on texts; instants are
 integers with an arbitrary ISO rendering.
 */
module Receipts {
  import opened Outcomes
  import opened PyText
  import opened CanonicalJson
  import opened CanonicalJsonProofs
  import opened ReceiptArgs

  /** The hash, the keyed hash and the clock format of one deployment. */
  datatype Crypto = Crypto(
    sha256: string -> string,
    hmac: (string, string) -> string,
    isoFormat: int -> string,
    isoParse: string -> Option<int>)

  /** fromisoformat reads what isoformat writes. */
  ghost predicate ClockRoundTrips(c: Crypto) {
    forall t :: c.isoParse(c.isoFormat(t)) == Some(t)
  }

  const RECEIPT_SCHEMA := "cubiczan-chp-mcp/approval-receipt/v1"

  const MAC_TUPLE_FIELDS: seq<string> :=
    ["schema", "receipt_id", "tool", "actor", "args", "args_sha256",
     "policy_version", "issued_at", "expires_at", "nonce"]

  datatype Refusal =
    | NotAnObject
    | MissingField
    | UnknownSchema
    | EmptyField
    | BadInstant
    | MacMismatch
    | ToolMismatch
    | PolicyMismatch
    | AmbiguousBinding
    | NotADict // dict() or sorting raises
    | ActorMismatch
    | Expired
    | Replay(prior: Event)

  datatype Event =
    | Issued(receiptId: Json, receipt: seq<Member>)
    | Redeemed(receiptId: Json, tool: Json, actor: Json, argsSha: Json, policy: Json,
               redeemedAt: string, expiresAt: Json)

  /** What the caller of verify_and_redeem is about to execute. */
  datatype Request = Request(tool: string, args: seq<Member>, policy: string, actor: Option<string>)

  /* ---------- minting ---------- */

  function Prefix16(s: string): string {
    if |s| <= 16 then s else s[..16]
  }

  /** The receipt before its id and MAC are known. */
  function Draft(c: Crypto, tool: string, actor: string, args: seq<Member>, policy: string,
                 ttl: int, now: int, nonce: string, id: string): seq<Member>
  {
    [ Member("schema", JStr(RECEIPT_SCHEMA)),
      Member("receipt_id", JStr(id)),
      Member("tool", JStr(tool)),
      Member("actor", JStr(actor)),
      Member("args", Normalize(JObj(args))),
      Member("args_sha256", JStr(c.sha256(ArgsBinding(args)))),
      Member("policy_version", JStr(policy)),
      Member("issued_at", JStr(c.isoFormat(now))),
      Member("expires_at", JStr(c.isoFormat(now + ttl))),
      Member("nonce", JStr(nonce)) ]
  }

  /** The receipt without its MAC: the id hashes the same tuple with an empty id. */
  function PublicReceipt(c: Crypto, tool: string, actor: string, args: seq<Member>, policy: string,
                         ttl: int, now: int, nonce: string): seq<Member>
  {
    var blank := Draft(c, tool, actor, args, policy, ttl, now, nonce, "");
    Draft(c, tool, actor, args, policy, ttl, now, nonce, Prefix16(c.sha256(CanonicalText(JObj(blank)))))
  }

  function SignedReceipt(c: Crypto, key: string, tool: string, actor: string, args: seq<Member>, policy: string,
                         ttl: int, now: int, nonce: string): seq<Member>
  {
    var receipt := PublicReceipt(c, tool, actor, args, policy, ttl, now, nonce);
    receipt + [Member("mac", JStr(c.hmac(key, CanonicalText(JObj(receipt)))))]
  }

  /* ---------- verifying ---------- */

  predicate IsNonEmptyText(v: Json) {
    v.JStr? && v.s != ""
  }

  predicate HasAll(receipt: seq<Member>, fields: seq<string>) {
    forall f | f in fields :: HasKey(receipt, f)
  }

  function ParseInstant(c: Crypto, v: Json): Option<int> {
    if v.JStr? then c.isoParse(v.s) else None
  }

  /** The structural checks, in the order the service makes them. */
  function Structured(c: Crypto, receipt: Json): Result<seq<Member>, Refusal> {
    if !receipt.JObj? then Err(NotAnObject)
    else
      var r := receipt.members;
      if !HasAll(r, MAC_TUPLE_FIELDS + ["mac"]) then Err(MissingField)
      else if Get(r, "schema") != JStr(RECEIPT_SCHEMA) then Err(UnknownSchema)
      else if !(&& IsNonEmptyText(Get(r, "tool")) && IsNonEmptyText(Get(r, "actor"))
                && IsNonEmptyText(Get(r, "policy_version")) && IsNonEmptyText(Get(r, "nonce"))) then Err(EmptyField)
      else if ParseInstant(c, Get(r, "issued_at")).None? then Err(BadInstant)
      else Ok(r)
  }

  /** The dict of the named fields of a receipt, in the given order. */
  function Project(receipt: seq<Member>, fields: seq<string>): seq<Member> {
    if fields == [] then []
    else [Member(fields[0], Get(receipt, fields[0]))] + Project(receipt, fields[1..])
  }

  /** The text the MAC covers. */
  function MacText(receipt: seq<Member>): string {
    CanonicalText(JObj(Project(receipt, MAC_TUPLE_FIELDS)))
  }

  /** Every check before the spend; the redemption event to record when all pass. */
  function Verify(c: Crypto, key: string, receipt: Json, request: Request, now: int): Result<Event, Refusal> {
    var r :- Structured(c, receipt);
    if Get(r, "mac") != JStr(c.hmac(key, MacText(r))) then Err(MacMismatch)
    else if Get(r, "tool") != JStr(request.tool) then Err(ToolMismatch)
    else if Get(r, "policy_version") != JStr(request.policy) then Err(PolicyMismatch)
    else
      var binding := ArgsBinding(request.args);
      if Get(r, "args_sha256") != JStr(c.sha256(binding)) then Err(AmbiguousBinding)
      else if BindingOf(Get(r, "args")).None? then Err(NotADict)
      else if BindingOf(Get(r, "args")).value != binding then Err(AmbiguousBinding)
      else if request.actor.Some? && Get(r, "actor") != JStr(request.actor.value) then Err(ActorMismatch)
      else
        var expiry := ParseInstant(c, Get(r, "expires_at"));
        if expiry.None? then Err(BadInstant)
        else if now >= expiry.value then Err(Expired)
        else Ok(Redeemed(Get(r, "receipt_id"), Get(r, "tool"), Get(r, "actor"), Get(r, "args_sha256"),
                         Get(r, "policy_version"), c.isoFormat(now), Get(r, "expires_at")))
  }

  /** The first redemption of an id in a ledger. */
  function FindRedemption(events: seq<Event>, id: Json): (prior: Option<Event>)
    ensures prior.Some? ==> prior.value in events && prior.value.Redeemed? && prior.value.receiptId == id
    ensures prior.None? ==> forall e | e in events :: e.Redeemed? ==> e.receiptId != id
  {
    if events == [] then None
    else if events[0].Redeemed? && events[0].receiptId == id then Some(events[0])
    else FindRedemption(events[1..], id)
  }

  /* ---------- the ledger and the service ---------- */

  /** Append-only events of issued and redeemed receipts. */
  class ApprovalReceiptLedger {
    var events: seq<Event>

    constructor ()
      ensures events == []
    {
      events := [];
    }

    method Append(entry: Event)
      modifies this
      ensures events == old(events) + [entry]
    {
      events := events + [entry];
    }

    method Redemption(id: Json) returns (prior: Option<Event>)
      ensures prior == FindRedemption(events, id)
    {
      for k := 0 to |events|
        invariant FindRedemption(events, id) == FindRedemption(events[k..], id)
      {
        if events[k].Redeemed? && events[k].receiptId == id {
          return Some(events[k]);
        }
        assert events[k..][1..] == events[k + 1..];
      }
      return None;
    }

    /** The spend-check and the append, one atomic step under the path lock. */
    method RedeemOnce(redemption: Event) returns (prior: Option<Event>)
      requires redemption.Redeemed?
      modifies this
      ensures prior == FindRedemption(old(events), redemption.receiptId)
      ensures events == if prior.None? then old(events) + [redemption] else old(events)
    {
      prior := Redemption(redemption.receiptId);
      if prior.None? {
        Append(redemption);
      }
    }
  }

  class ApprovalReceiptService {
    const crypto: Crypto
    const key: string
    const records: ApprovalReceiptLedger

    constructor (crypto: Crypto, key: string, records: ApprovalReceiptLedger)
      ensures this.crypto == crypto && this.key == key && this.records == records
    {
      this.crypto := crypto;
      this.key := key;
      this.records := records;
    }

    method Sign(tool: string, actor: string, args: seq<Member>, policy: string, ttl: int, now: int, nonce: string)
      returns (receipt: seq<Member>)
      modifies records
      ensures receipt == SignedReceipt(crypto, key, tool, actor, args, policy, ttl, now, nonce)
      ensures records.events == old(records.events) + [Issued(Get(receipt, "receipt_id"), receipt[..|receipt| - 1])]
    {
      hide CanonicalText, Prefix16, ArgsBinding, Normalize, HasKey, Get;
      receipt := Draft(crypto, tool, actor, args, policy, ttl, now, nonce, "");
      var id := Prefix16(crypto.sha256(CanonicalText(JObj(receipt))));
      receipt := Draft(crypto, tool, actor, args, policy, ttl, now, nonce, id);
      var public := receipt;
      receipt := receipt + [Member("mac", JStr(crypto.hmac(key, CanonicalText(JObj(receipt)))))];
      assert receipt[..|receipt| - 1] == public;
      LookupInOrder(receipt, 1);
      records.Append(Issued(JStr(id), public));
    }

    method VerifyAndRedeem(receipt: Json, request: Request, now: int) returns (r: Result<Event, Refusal>)
      modifies records
      ensures match Verify(crypto, key, receipt, request, now)
              case Err(refusal) => r == Err(refusal) && records.events == old(records.events)
              case Ok(redemption) =>
                match FindRedemption(old(records.events), redemption.receiptId)
                case Some(prior) => r == Err(Replay(prior)) && records.events == old(records.events)
                case None => r == Ok(redemption) && records.events == old(records.events) + [redemption]
    {
      var redemption :- Verify(crypto, key, receipt, request, now);
      var prior := records.RedeemOnce(redemption);
      if prior.Some? {
        return Err(Replay(prior.value));
      }
      return Ok(redemption);
    }
  }

  /* ---------- what an accepted call establishes ---------- */

  /** Looking a key up in a dict with unique keys. */
  lemma LookupInOrder(ms: seq<Member>, k: nat)
    requires k < |ms| && forall j | 0 <= j < k :: ms[j].key != ms[k].key
    ensures HasKey(ms, ms[k].key) && Get(ms, ms[k].key) == ms[k].value
  {
    if k > 0 {
      assert forall j | 0 <= j < k - 1 :: ms[1..][j] == ms[j + 1];
      LookupInOrder(ms[1..], k - 1);
    }
  }

  /** The receipt authorizes this request at this instant. */
  ghost predicate Authorizes(c: Crypto, key: string, r: seq<Member>, request: Request, now: int) {
    && Structured(c, JObj(r)).Ok?
    && Get(r, "mac") == JStr(c.hmac(key, MacText(r)))
    && Get(r, "tool") == JStr(request.tool)
    && Get(r, "policy_version") == JStr(request.policy)
    && Get(r, "args_sha256") == JStr(c.sha256(ArgsBinding(request.args)))
    && CoerceTo(Get(r, "args"), request.args)
    && (request.actor.Some? ==> Get(r, "actor") == JStr(request.actor.value))
    && ParseInstant(c, Get(r, "expires_at")).Some?
    && now < ParseInstant(c, Get(r, "expires_at")).value
  }

  lemma FieldIsTree(r: seq<Member>, key: string)
    requires IsTree(JObj(r))
    ensures IsTree(Get(r, key))
  {
    HasKeyIff(r, key);
  }

  lemma StructuredKeeps(c: Crypto, receipt: Json)
    ensures Structured(c, receipt).Ok? ==> receipt.JObj? && Structured(c, receipt).value == receipt.members
  {
  }

  /**
   Verification passes exactly for receipts that authorize the request; in particular what the
   receipt carries coerces to a dict that agrees, key by key, with the arguments about to be
   executed. Nothing is assumed of the hash or the MAC.
   */
  lemma VerifyPassesExactly(c: Crypto, key: string, receipt: Json, request: Request, now: int)
    requires IsTree(receipt) && IsTree(JObj(request.args))
    ensures Verify(c, key, receipt, request, now).Ok?
       <==> receipt.JObj? && Authorizes(c, key, receipt.members, request, now)
  {
    hide CanonicalText, MacText, Structured, ArgsBinding, BindingOf, CoerceTo, HasKey, Get, IsTree, ParseInstant;
    StructuredKeeps(c, receipt);
    if receipt.JObj? {
      FieldIsTree(receipt.members, "args");
      BindingMeansCoercion(Get(receipt.members, "args"), request.args);
    }
  }

  /** A passing receipt and its call normalize to one tree exactly when the receipt carries an object. */
  lemma OneTreeExactlyForObjects(c: Crypto, key: string, receipt: Json, request: Request, now: int)
    requires IsTree(receipt) && IsTree(JObj(request.args)) && Verify(c, key, receipt, request, now).Ok?
    ensures receipt.JObj?
    ensures Normalize(Get(receipt.members, "args")) == Normalize(JObj(request.args))
       <==> Get(receipt.members, "args").JObj?
  {
    hide CanonicalText, MacText, Structured, ArgsBinding, BindingOf, CoerceTo, HasKey, Get, IsTree, ParseInstant;
    hide Normalize;
    VerifyPassesExactly(c, key, receipt, request, now);
    FieldIsTree(receipt.members, "args");
    OneTreeIffObject(Get(receipt.members, "args"), request.args);
  }

  const PLAIN := Crypto(s => "h", (k, s) => "m", t => "t", s => Some(1))

  /** The receipt fields of a signer that carries `args` as they are. */
  function Carrying(args: Json): seq<Member> {
    [ Member("schema", JStr(RECEIPT_SCHEMA)), Member("receipt_id", JStr("r")), Member("tool", JStr("t")),
      Member("actor", JStr("a")), Member("args", args), Member("args_sha256", JStr("h")),
      Member("policy_version", JStr("p")), Member("issued_at", JStr("t")), Member("expires_at", JStr("t")),
      Member("nonce", JStr("n")), Member("mac", JStr("m")) ]
  }

  lemma CarryingFields(args: Json)
    ensures forall k | 0 <= k < 11 :: HasKey(Carrying(args), Carrying(args)[k].key)
              && Get(Carrying(args), Carrying(args)[k].key) == Carrying(args)[k].value
  {
    forall k | 0 <= k < 11
      ensures HasKey(Carrying(args), Carrying(args)[k].key)
      ensures Get(Carrying(args), Carrying(args)[k].key) == Carrying(args)[k].value
    {
      LookupInOrder(Carrying(args), k);
    }
  }

  /** An authentic receipt that carries an empty list passes for a call without arguments. */
  lemma EmptyListPasses()
    ensures Verify(PLAIN, "", JObj(Carrying(JArr([]))), Request("t", [], "p", None), 0).Ok?
    ensures Normalize(JArr([])) != Normalize(JObj([]))
  {
    hide Get, HasKey, MacText, ArgsBinding, CoerceTo, BindingOf, Carrying, IsTree, Verify;
    var request := Request("t", [], "p", None);
    NormalizeKeepsKind(JArr([]));
    ListsBind("", "");
    CarryingAuthorizes(JArr([]), request);
    NoMembers();
    CarryingIsTree(JArr([]));
    VerifyPassesExactly(PLAIN, "", JObj(Carrying(JArr([]))), request, 0);
  }

  lemma NoMembers()
    ensures IsTree(JObj([])) && IsTree(JArr([]))
  {
  }

  lemma CarryingIsTree(args: Json)
    requires IsTree(args)
    ensures IsTree(JObj(Carrying(args)))
  {
    var r := Carrying(args);
    MacFieldsDistinct();
    assert forall k | 0 <= k < 10 :: r[k].key == MAC_TUPLE_FIELDS[k];
    hide Carrying;
    assert UniqueKeys(r);
    forall m | m in r ensures IsTree(m.value) {
      assert m.value == args || m.value.JStr?;
    }
  }

  lemma CarryingAuthorizes(args: Json, request: Request)
    requires request.tool == "t" && request.policy == "p" && request.actor.None? && CoerceTo(args, request.args)
    ensures Authorizes(PLAIN, "", Carrying(args), request, 0)
  {
    hide Get, HasKey, MacText, ArgsBinding, CoerceTo;
    var r := Carrying(args);
    CarryingFields(args);
    assert r[0].key == "schema" && r[2].key == "tool" && r[3].key == "actor" && r[4].key == "args";
    assert r[5].key == "args_sha256" && r[6].key == "policy_version" && r[7].key == "issued_at";
    assert r[8].key == "expires_at" && r[9].key == "nonce" && r[10].key == "mac" && r[1].key == "receipt_id";
  }

  /* ---------- a freshly signed receipt ---------- */

  /** Fields read alike give one MAC text. */
  lemma {:induction false} ProjectReads(r: seq<Member>, s: seq<Member>, fields: seq<string>)
    requires forall f | f in fields :: Get(r, f) == Get(s, f)
    ensures Project(r, fields) == Project(s, fields)
  {
    if fields != [] {
      ProjectReads(r, s, fields[1..]);
    }
  }

  lemma {:induction false} ProjectItself(r: seq<Member>, fields: seq<string>, k: nat)
    requires k <= |fields| <= |r| && (forall j | 0 <= j < |fields| :: r[j].key == fields[j])
    requires forall i, j | 0 <= i < j < |fields| :: fields[i] != fields[j]
    ensures Project(r, fields[k..]) == r[k..|fields|]
    decreases |fields| - k
  {
    if k < |fields| {
      LookupInOrder(r, k);
      ProjectItself(r, fields, k + 1);
      assert fields[k..][1..] == fields[k + 1..];
      assert r[k..|fields|] == [r[k]] + r[k + 1..|fields|];
    }
  }

  lemma MacFieldsDistinct()
    ensures forall i, j | 0 <= i < j < 10 :: MAC_TUPLE_FIELDS[i] != MAC_TUPLE_FIELDS[j]
    ensures "mac" !in MAC_TUPLE_FIELDS
  {
  }

  /** The fields a signed receipt carries, read back. */
  lemma SignedFields(c: Crypto, key: string, tool: string, actor: string, args: seq<Member>, policy: string,
                     ttl: int, now: int, nonce: string)
    ensures var r := SignedReceipt(c, key, tool, actor, args, policy, ttl, now, nonce);
            var d := PublicReceipt(c, tool, actor, args, policy, ttl, now, nonce);
            && |d| == 10 && r[..10] == d
            && (forall k | 0 <= k < 10 :: d[k].key == MAC_TUPLE_FIELDS[k])
            && (forall k | 0 <= k < 10 :: HasKey(r, MAC_TUPLE_FIELDS[k]) && Get(r, MAC_TUPLE_FIELDS[k]) == d[k].value)
            && HasKey(r, "mac") && Get(r, "mac") == JStr(c.hmac(key, CanonicalText(JObj(d))))
            && MacText(r) == CanonicalText(JObj(d))
  {
    hide CanonicalText, ArgsBinding, Normalize, Prefix16, HasKey, Get, Project;
    var r := SignedReceipt(c, key, tool, actor, args, policy, ttl, now, nonce);
    var d := PublicReceipt(c, tool, actor, args, policy, ttl, now, nonce);
    MacFieldsDistinct();
    assert r[..10] == d;
    forall k | 0 <= k < 10
      ensures HasKey(r, MAC_TUPLE_FIELDS[k]) && Get(r, MAC_TUPLE_FIELDS[k]) == d[k].value
    {
      assert r[k] == d[k];
      LookupInOrder(r, k);
    }
    LookupInOrder(r, 10);
    MacOfInOrder(r);
  }

  /** The MAC of a receipt whose fields stand in their order covers them as they stand. */
  lemma MacOfInOrder(r: seq<Member>)
    requires |r| >= 10 && forall k | 0 <= k < 10 :: r[k].key == MAC_TUPLE_FIELDS[k]
    ensures MacText(r) == CanonicalText(JObj(r[..10]))
  {
    hide CanonicalText, Project;
    MacFieldsDistinct();
    ProjectItself(r, MAC_TUPLE_FIELDS, 0);
    assert MAC_TUPLE_FIELDS[0..] == MAC_TUPLE_FIELDS && r[0..10] == r[..10];
  }

  /**
   A receipt just minted passes verification for every request with the same tool, policy and
   (when named) actor whose arguments agree with the approved ones, until it expires.
   */
  lemma FreshReceiptPasses(c: Crypto, key: string, tool: string, actor: string, args: seq<Member>, policy: string,
                           ttl: int, now: int, nonce: string, request: Request, later: int)
    requires ClockRoundTrips(c) && IsTree(JObj(args)) && IsTree(JObj(request.args))
    requires tool != "" && actor != "" && policy != "" && nonce != ""
    requires request.tool == tool && request.policy == policy
    requires request.actor.None? || request.actor == Some(actor)
    requires Agree(JObj(args), JObj(request.args)) && later < now + ttl
    ensures var receipt := SignedReceipt(c, key, tool, actor, args, policy, ttl, now, nonce);
            var verdict := Verify(c, key, JObj(receipt), request, later);
            verdict.Ok? && verdict.value.receiptId == Get(receipt, "receipt_id")
  {
    hide MacText, ArgsBinding, Normalize, Agree, SignedReceipt, HasKey, Get, HasAll;
    var r := SignedReceipt(c, key, tool, actor, args, policy, ttl, now, nonce);
    FreshFields(c, key, tool, actor, args, policy, ttl, now, nonce);
    BindingMeansAgreement(args, request.args);
    NormalArgsBind(args);
    assert Structured(c, JObj(r)) == Ok(r);
  }

  /** Each field of a fresh receipt, by name. */
  lemma FreshFields(c: Crypto, key: string, tool: string, actor: string, args: seq<Member>, policy: string,
                    ttl: int, now: int, nonce: string)
    ensures var r := SignedReceipt(c, key, tool, actor, args, policy, ttl, now, nonce);
            && HasAll(r, MAC_TUPLE_FIELDS + ["mac"])
            && Get(r, "schema") == JStr(RECEIPT_SCHEMA)
            && Get(r, "tool") == JStr(tool) && Get(r, "actor") == JStr(actor)
            && Get(r, "args") == Normalize(JObj(args)) && Get(r, "args_sha256") == JStr(c.sha256(ArgsBinding(args)))
            && Get(r, "policy_version") == JStr(policy) && Get(r, "nonce") == JStr(nonce)
            && Get(r, "issued_at") == JStr(c.isoFormat(now)) && Get(r, "expires_at") == JStr(c.isoFormat(now + ttl))
            && Get(r, "mac") == JStr(c.hmac(key, MacText(r)))
  {
    hide CanonicalText, ArgsBinding, Normalize, Prefix16, HasKey, Get, MacText, SignedReceipt;
    var r := SignedReceipt(c, key, tool, actor, args, policy, ttl, now, nonce);
    var d := PublicReceipt(c, tool, actor, args, policy, ttl, now, nonce);
    SignedFields(c, key, tool, actor, args, policy, ttl, now, nonce);
    forall f | f in MAC_TUPLE_FIELDS + ["mac"]
      ensures HasKey(r, f)
    {
      if f != "mac" {
        assert f in MAC_TUPLE_FIELDS;
        var k :| 0 <= k < 10 && MAC_TUPLE_FIELDS[k] == f;
        assert HasKey(r, MAC_TUPLE_FIELDS[k]);
      }
    }
    forall k | 0 <= k < 10
      ensures Get(r, d[k].key) == d[k].value
    {
      assert Get(r, MAC_TUPLE_FIELDS[k]) == d[k].value;
    }
    assert Get(r, d[0].key) == d[0].value && Get(r, d[2].key) == d[2].value && Get(r, d[3].key) == d[3].value;
    assert Get(r, d[4].key) == d[4].value && Get(r, d[5].key) == d[5].value && Get(r, d[6].key) == d[6].value;
    assert Get(r, d[7].key) == d[7].value && Get(r, d[8].key) == d[8].value && Get(r, d[9].key) == d[9].value;
  }

  /** The normalized arguments a receipt carries bind like the arguments themselves. */
  lemma NormalArgsBind(args: seq<Member>)
    requires IsTree(JObj(args))
    ensures Normalize(JObj(args)).JObj? && ArgsBinding(Normalize(JObj(args)).members) == ArgsBinding(args)
  {
    NormalizeIdempotent(JObj(args));
  }
}
