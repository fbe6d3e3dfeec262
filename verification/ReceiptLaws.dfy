/**
 What a receipt binds: every field of it under its MAC, every field of it in its id - and why each
 receipt that is refused is refused.
 */
module ReceiptLaws {
  import opened Outcomes
  import opened PyText
  import opened CanonicalJson
  import opened CanonicalJsonProofs
  import opened ReceiptArgs
  import opened Receipts

  /** The ten fields of a receipt that its MAC covers. */
  const BOUND: seq<string> :=
    ["schema", "receipt_id", "tool", "actor", "args", "args_sha256",
     "policy_version", "issued_at", "expires_at", "nonce"]

  /** Two receipts carry the same under a field, dicts in whatever order. */
  predicate SameUnder(r: seq<Member>, s: seq<Member>, field: string) {
    SortKeys(Get(r, field)) == SortKeys(Get(s, field))
  }

  /* ---------- the MAC ---------- */

  lemma {:induction false} ProjectAt(r: seq<Member>, fields: seq<string>)
    ensures |Project(r, fields)| == |fields|
    ensures forall k | 0 <= k < |fields| :: Project(r, fields)[k] == Member(fields[k], Get(r, fields[k]))
  {
    if fields != [] {
      ProjectAt(r, fields[1..]);
    }
  }

  /**
   The MAC covers each of the ten fields and nothing else: two receipts have one MAC text exactly
   when they carry the same under all of them.
   */
  lemma MacCovers(r: seq<Member>, s: seq<Member>)
    ensures MacText(r) == MacText(s) <==> forall k | 0 <= k < 10 :: SameUnder(r, s, BOUND[k])
  {
    hide SortKeys, Project, Get, Print, UniqueKeys;
    var a, b := Project(r, MAC_TUPLE_FIELDS), Project(s, MAC_TUPLE_FIELDS);
    ProjectAt(r, MAC_TUPLE_FIELDS);
    ProjectAt(s, MAC_TUPLE_FIELDS);
    BoundKeys(a);
    FieldsIff(a, b);
    if MacText(r) == MacText(s) {
      PrintInjective(SortKeys(JObj(a)), SortKeys(JObj(b)));
    }
    assert forall k | 0 <= k < 10 :: MAC_TUPLE_FIELDS[k] == BOUND[k];
  }

  lemma BoundKeys(a: seq<Member>)
    requires |a| == 10 && forall k | 0 <= k < 10 :: a[k].key == MAC_TUPLE_FIELDS[k]
    ensures UniqueKeys(a)
  {
    MacFieldsDistinct();
    forall i, j | 0 <= i < j < |a| ensures a[i].key != a[j].key {
      assert MAC_TUPLE_FIELDS[i] != MAC_TUPLE_FIELDS[j];
    }
  }

  /* ---------- the id ---------- */

  /** No two texts share the first sixteen digits of their hash, no two instants their text. */
  ghost predicate IsCollisionFree(c: Crypto) {
    && (forall s, t :: Prefix16(c.sha256(s)) == Prefix16(c.sha256(t)) ==> s == t)
    && (forall m, n :: c.isoFormat(m) == c.isoFormat(n) ==> m == n)
  }

  /** What an approval is about. */
  datatype Approval = Approval(
    tool: string, actor: string, args: seq<Member>, policy: string, ttl: int, now: int, nonce: string)

  function Minted(c: Crypto, key: string, a: Approval): seq<Member> {
    SignedReceipt(c, key, a.tool, a.actor, a.args, a.policy, a.ttl, a.now, a.nonce)
  }

  /** The approvals agree in everything, arguments key by key. */
  predicate SameApproval(a: Approval, b: Approval) {
    && a.tool == b.tool && a.actor == b.actor && a.policy == b.policy && a.nonce == b.nonce
    && a.now == b.now && a.ttl == b.ttl && Agree(JObj(a.args), JObj(b.args))
  }

  /**
   An id stands for one approval: where hashes do not collide, two receipts share their id only
   if every field they were minted from agrees. So an approval given again, with its own nonce or
   at its own time, is not taken for a replay.
   */
  lemma SameIdSameApproval(c: Crypto, key: string, a: Approval, b: Approval)
    requires IsCollisionFree(c) && IsTree(JObj(a.args)) && IsTree(JObj(b.args))
    requires Get(Minted(c, key, a), "receipt_id") == Get(Minted(c, key, b), "receipt_id")
    ensures SameApproval(a, b)
  {
    hide CanonicalText, ArgsBinding, Normalize, Prefix16, Get, Agree, HasKey, MacText, IsTree;
    IdOf(c, key, a);
    IdOf(c, key, b);
    var d := Draft(c, a.tool, a.actor, a.args, a.policy, a.ttl, a.now, a.nonce, "");
    var e := Draft(c, b.tool, b.actor, b.args, b.policy, b.ttl, b.now, b.nonce, "");
    assert CanonicalText(JObj(d)) == CanonicalText(JObj(e));
    DraftsAgree(c, a, b, d, e);
    BindingDeterminesNormalForm(a.args, b.args);
    BindingMeansAgreement(a.args, b.args);
  }

  lemma IdOf(c: Crypto, key: string, a: Approval)
    ensures Get(Minted(c, key, a), "receipt_id")
         == JStr(Prefix16(c.sha256(CanonicalText(JObj(
              Draft(c, a.tool, a.actor, a.args, a.policy, a.ttl, a.now, a.nonce, ""))))))
  {
    hide CanonicalText, ArgsBinding, Normalize, Prefix16, Get, HasKey, MacText;
    SignedFields(c, key, a.tool, a.actor, a.args, a.policy, a.ttl, a.now, a.nonce);
    assert Get(Minted(c, key, a), MAC_TUPLE_FIELDS[1])
        == PublicReceipt(c, a.tool, a.actor, a.args, a.policy, a.ttl, a.now, a.nonce)[1].value;
  }

  lemma DraftsAgree(c: Crypto, a: Approval, b: Approval, d: seq<Member>, e: seq<Member>)
    requires IsCollisionFree(c)
    requires d == Draft(c, a.tool, a.actor, a.args, a.policy, a.ttl, a.now, a.nonce, "")
    requires e == Draft(c, b.tool, b.actor, b.args, b.policy, b.ttl, b.now, b.nonce, "")
    requires CanonicalText(JObj(d)) == CanonicalText(JObj(e))
    ensures a.tool == b.tool && a.actor == b.actor && a.policy == b.policy && a.nonce == b.nonce
    ensures a.now == b.now && a.ttl == b.ttl && ArgsBinding(a.args) == ArgsBinding(b.args)
  {
    hide SortKeys, ArgsBinding, Normalize, UniqueKeys, Print, Prefix16;
    assert forall k | 0 <= k < 10 :: d[k].key == MAC_TUPLE_FIELDS[k] && e[k].key == MAC_TUPLE_FIELDS[k];
    BoundKeys(d);
    PrintInjective(SortKeys(JObj(d)), SortKeys(JObj(e)));
    FieldsIff(d, e);
    TextsStay();
    assert SortKeys(d[2].value) == SortKeys(e[2].value) && SortKeys(d[3].value) == SortKeys(e[3].value);
    assert SortKeys(d[5].value) == SortKeys(e[5].value) && SortKeys(d[6].value) == SortKeys(e[6].value);
    assert SortKeys(d[7].value) == SortKeys(e[7].value) && SortKeys(d[8].value) == SortKeys(e[8].value);
    assert SortKeys(d[9].value) == SortKeys(e[9].value);
    assert Prefix16(c.sha256(ArgsBinding(a.args))) == Prefix16(c.sha256(ArgsBinding(b.args)));
  }

  lemma TextsStay()
    ensures forall s :: SortKeys(JStr(s)) == JStr(s)
  {
  }

  /* ---------- refusals ---------- */

  /** The structural check that a receipt fails first, if it fails one. */
  lemma StructuredAs(c: Crypto, receipt: Json)
    ensures
      var verdict := Structured(c, receipt);
      if !receipt.JObj? then verdict == Err(NotAnObject)
      else
        var r := receipt.members;
        var filled := (field: string) => Get(r, field).JStr? && Get(r, field).s != "";
        if !HasKey(r, "mac") || exists k | 0 <= k < 10 :: !HasKey(r, BOUND[k]) then verdict == Err(MissingField)
        else if Get(r, "schema") != JStr("cubiczan-chp-mcp/approval-receipt/v1") then verdict == Err(UnknownSchema)
        else if !filled("tool") || !filled("actor") || !filled("policy_version") || !filled("nonce") then
          verdict == Err(EmptyField)
        else if !Get(r, "issued_at").JStr? || c.isoParse(Get(r, "issued_at").s).None? then verdict == Err(BadInstant)
        else verdict == Ok(r)
  {
    hide Get, HasKey;
    if receipt.JObj? {
      AllBoundIff(receipt.members);
    }
  }

  lemma AllBoundIff(r: seq<Member>)
    ensures HasAll(r, MAC_TUPLE_FIELDS + ["mac"])
       <==> HasKey(r, "mac") && forall k | 0 <= k < 10 :: HasKey(r, BOUND[k])
  {
    hide HasKey;
    var fields := MAC_TUPLE_FIELDS + ["mac"];
    assert fields[10] == "mac" && forall k | 0 <= k < 10 :: fields[k] == BOUND[k];
    assert forall k | 0 <= k < 11 :: fields[k] in fields;
    assert forall f | f in fields :: f == "mac" || f in BOUND;
  }

  /**
   Why a well-formed receipt is refused: the first check that fails, in this order - and what is
   written down when none does.
   */
  lemma RefusedAs(c: Crypto, key: string, r: seq<Member>, request: Request, now: int)
    requires Structured(c, JObj(r)).Ok? && IsTree(JObj(r)) && IsTree(JObj(request.args))
    ensures
      var verdict := Verify(c, key, JObj(r), request, now);
      var expiry := Get(r, "expires_at");
      if Get(r, "mac") != JStr(c.hmac(key, MacText(r))) then verdict == Err(MacMismatch)
      else if Get(r, "tool") != JStr(request.tool) then verdict == Err(ToolMismatch)
      else if Get(r, "policy_version") != JStr(request.policy) then verdict == Err(PolicyMismatch)
      else if Get(r, "args_sha256") != JStr(c.sha256(ArgsBinding(request.args))) then verdict == Err(AmbiguousBinding)
      else if !CoerceTo(Get(r, "args"), request.args) then verdict in {Err(NotADict), Err(AmbiguousBinding)}
      else if request.actor.Some? && Get(r, "actor") != JStr(request.actor.value) then verdict == Err(ActorMismatch)
      else if !expiry.JStr? || c.isoParse(expiry.s).None? then verdict == Err(BadInstant)
      else if now >= c.isoParse(expiry.s).value then verdict == Err(Expired)
      else
        verdict == Ok(Redeemed(Get(r, "receipt_id"), Get(r, "tool"), Get(r, "actor"), Get(r, "args_sha256"),
                               Get(r, "policy_version"), c.isoFormat(now), expiry))
  {
    hide MacText, ArgsBinding, BindingOf, CoerceTo, Get, HasKey, Structured, IsTree;
    StructuredKeeps(c, JObj(r));
    FieldIsTree(r, "args");
    BindingMeansCoercion(Get(r, "args"), request.args);
  }
}
