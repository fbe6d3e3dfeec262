/**
 What a reader finds in the bytes of a close package, by the names of its fields: the schema, every
 claim in its place, and each claim's history.
 */
module ClaimExportLaws {
  import opened Outcomes
  import opened CanonicalJson
  import opened JsonReader
  import opened CanonicalJsonProofs
  import opened ClaimExport
  import Claims

  /* ---------- what the fields say ---------- */

  predicate IsKind(kind: Claims.Kind, text: string) {
    (kind, text) in {
      (Claims.KpiMetric, "kpi_metric"), (Claims.SpendDecision, "spend_decision"), (Claims.ClosePeriod, "close_period")}
  }

  predicate IsStatus(status: Claims.Status, text: string) {
    (status, text) in {
      (Claims.Draft, "draft"), (Claims.Submitted, "submitted"), (Claims.UnderReview, "under_review"),
      (Claims.Approved, "approved"), (Claims.Locked, "locked"), (Claims.Rejected, "rejected"),
      (Claims.Withdrawn, "withdrawn")}
  }

  predicate IsAction(action: Claims.Action, text: string) {
    (action, text) in {
      (Claims.Submit, "submit"), (Claims.StartReview, "start_review"), (Claims.Approve, "approve"),
      (Claims.Reject, "reject"), (Claims.Lock, "lock"), (Claims.Withdraw, "withdraw")}
  }

  /** A dict with this value under this key. */
  predicate Under(v: Json, key: string, value: Json) {
    v.JObj? && HasKey(v.members, key) && Get(v.members, key) == value
  }

  predicate TextUnder(v: Json, key: string, text: string) {
    Under(v, key, JStr(text))
  }

  /** An absent text is null. */
  predicate OptionUnder(v: Json, key: string, text: Option<string>) {
    match text
    case Some(t) => Under(v, key, JStr(t))
    case None => Under(v, key, JNull)
  }

  ghost predicate TellsEvidence(v: Json, evidence: map<string, string>) {
    && v.JObj?
    && (forall key :: HasKey(v.members, key) <==> key in evidence)
    && (forall key | key in evidence :: TextUnder(v, key, evidence[key]))
  }

  ghost predicate TellsContent(v: Json, c: Claims.Content) {
    && (exists kind :: IsKind(c.kind, kind) && TextUnder(v, "kind", kind))
    && TextUnder(v, "subject", c.subject) && TextUnder(v, "statement", c.statement)
    && TextUnder(v, "asserted_value", c.assertedValue) && OptionUnder(v, "unit", c.unit)
    && OptionUnder(v, "window_start", c.windowStart) && OptionUnder(v, "window_end", c.windowEnd)
    && (exists evidence :: Under(v, "evidence", evidence) && TellsEvidence(evidence, c.evidence))
    && TextUnder(v, "opened_by", c.openedBy)
  }

  ghost predicate TellsClaim(iso: Iso, v: Json, claim: Claims.Claim) {
    && TextUnder(v, "claim_id", claim.id) && TellsContent(v, claim.content)
    && TextUnder(v, "opened_at", iso(claim.openedAt)) && TextUnder(v, "updated_at", iso(claim.updatedAt))
    && (exists status :: IsStatus(claim.status, status) && TextUnder(v, "status", status))
    && OptionUnder(v, "locked_by", claim.lockedBy)
  }

  ghost predicate TellsMove(iso: Iso, v: Json, t: Claims.Transition) {
    && TextUnder(v, "record", "TRANSITION") && TextUnder(v, "claim_id", t.id)
    && (exists action :: IsAction(t.action, action) && TextUnder(v, "action", action))
    && (exists from :: IsStatus(t.from, from) && TextUnder(v, "from_status", from))
    && (exists target :: IsStatus(t.target, target) && TextUnder(v, "to_status", target))
    && TextUnder(v, "actor", t.actor) && TextUnder(v, "at", iso(t.at))
    && OptionUnder(v, "note", t.note) && OptionUnder(v, "confirmed_by", t.confirmedBy)
  }

  ghost predicate TellsHistory(iso: Iso, v: Json, ts: seq<Claims.Transition>) {
    v.JArr? && |v.items| == |ts| && forall i | 0 <= i < |ts| :: TellsMove(iso, v.items[i], ts[i])
  }

  /** The histories by claim id, each once. */
  ghost predicate TellsHistories(iso: Iso, v: Json, history: map<string, seq<Claims.Transition>>) {
    && v.JObj?
    && (forall id :: HasKey(v.members, id) <==> id in history)
    && (forall id | id in history :: TellsHistory(iso, Get(v.members, id), history[id]))
  }

  ghost predicate TellsClaims(iso: Iso, v: Json, claims: seq<Claims.Claim>) {
    v.JArr? && |v.items| == |claims| && forall i | 0 <= i < |claims| :: TellsClaim(iso, v.items[i], claims[i])
  }

  ghost predicate TellsPackage(iso: Iso, v: Json, p: Claims.Package) {
    && TextUnder(v, "schema", "cubiczan-erp/claim-lifecycle/v1")
    && (exists claims :: Under(v, "claims", claims) && TellsClaims(iso, claims, p.claims))
    && (exists history :: Under(v, "history", history) && TellsHistories(iso, history, p.history))
  }

  /* ---------- reading sorted dicts ---------- */

  /** Sorting moves the fields of a dict and sorts their values. */
  lemma SortedField(ms: seq<Member>, i: nat)
    requires UniqueKeys(ms) && i < |ms|
    ensures Under(SortKeys(JObj(ms)), ms[i].key, SortKeys(ms[i].value))
  {
    hide SortKeys, SortByKey, Get, HasKey, KeysAscend;
    var x, key := SortKeysMembers(ms), ms[i].key;
    SortKeysAll(ms);
    assert UniqueKeys(x);
    SortCorrect(x, key);
    assert x[i] in x;
    HasKeyIff(x, key);
    GetIsMember(x, x[i]);
    SortedIs(ms);
  }

  lemma SortedIs(ms: seq<Member>)
    ensures SortKeys(JObj(ms)) == JObj(SortByKey(SortKeysMembers(ms)))
  {
  }

  lemma SortedFields(ms: seq<Member>)
    requires UniqueKeys(ms)
    ensures forall i | 0 <= i < |ms| :: Under(SortKeys(JObj(ms)), ms[i].key, SortKeys(ms[i].value))
  {
    hide UniqueKeys, Under, SortKeys;
    forall i | 0 <= i < |ms| ensures Under(SortKeys(JObj(ms)), ms[i].key, SortKeys(ms[i].value)) {
      SortedField(ms, i);
    }
  }

  lemma OptionIsFixed(text: Option<string>)
    ensures SortKeys(OptionTree(text)) == OptionTree(text)
  {
  }

  lemma TextsStay()
    ensures forall s :: SortKeys(JStr(s)) == JStr(s)
  {
  }

  lemma {:induction false} ItemsStay(items: seq<Json>)
    ensures SortKeys(JArr(items)) == JArr(SortKeysItems(items)) && |SortKeysItems(items)| == |items|
    ensures forall i | 0 <= i < |items| :: SortKeysItems(items)[i] == SortKeys(items[i])
  {
    ItemsAt(items);
  }

  /* ---------- claims, moves, packages ---------- */

  lemma EvidenceReads(e: seq<Member>, evidence: map<string, string>)
    requires IsDictOf(e, evidence, (s: string) => JStr(s))
    ensures TellsEvidence(SortKeys(JObj(e)), evidence)
  {
    hide SortKeys, HasKey, Get, KeysAscend, IsDictOf;
    var tree := (s: string) => JStr(s);
    SortedIs(e);
    TextsStay();
    var s := SortedDict(e, evidence, tree);
    forall key | key in evidence ensures TextUnder(SortKeys(JObj(e)), key, evidence[key]) {
      assert Get(s, key) == SortKeys(tree(evidence[key]));
    }
  }

  lemma ContentReads(iso: Iso, claim: Claims.Claim, e: seq<Member>)
    requires IsDictOf(e, claim.content.evidence, (s: string) => JStr(s))
    ensures TellsContent(SortKeys(JObj(ClaimMembers(iso, claim, e))), claim.content)
  {
    hide SortKeys, Under, OptionTree, KindText, IsDictOf, TellsEvidence, UniqueKeys, ClaimMembers, IsKind;
    var ms, c := ClaimMembers(iso, claim, e), claim.content;
    var v := SortKeys(JObj(ms));
    ClaimKeysDiffer(iso, claim, e);
    SortedFields(ms);
    TextsStay();
    EvidenceReads(e, c.evidence);
    ClaimFieldsAre(iso, claim, e);
    assert Under(v, "kind", SortKeys(ms[1].value)) && Under(v, "subject", SortKeys(ms[2].value));
    assert Under(v, "statement", SortKeys(ms[3].value)) && Under(v, "asserted_value", SortKeys(ms[4].value));
    assert Under(v, "evidence", SortKeys(ms[8].value)) && Under(v, "opened_by", SortKeys(ms[9].value));
    KindIs(c.kind);
    OptionReads(v, ms[5], c.unit);
    OptionReads(v, ms[6], c.windowStart);
    OptionReads(v, ms[7], c.windowEnd);
  }

  lemma KindIs(kind: Claims.Kind)
    ensures IsKind(kind, KindText(kind))
  {
  }

  lemma StatusIs(status: Claims.Status)
    ensures IsStatus(status, StatusText(status))
  {
  }

  lemma ActionIs(action: Claims.Action)
    ensures IsAction(action, ActionText(action))
  {
  }

  lemma OptionReads(v: Json, m: Member, text: Option<string>)
    requires m.value == OptionTree(text) && Under(v, m.key, SortKeys(m.value))
    ensures OptionUnder(v, m.key, text)
  {
    OptionIsFixed(text);
  }

  /** The fields of a claim, by name. */
  lemma ClaimFieldsAre(iso: Iso, claim: Claims.Claim, e: seq<Member>)
    ensures
      var ms, c := ClaimMembers(iso, claim, e), claim.content;
      && ms[..5] == [Member("claim_id", JStr(claim.id)), Member("kind", JStr(KindText(c.kind))),
                     Member("subject", JStr(c.subject)), Member("statement", JStr(c.statement)),
                     Member("asserted_value", JStr(c.assertedValue))]
      && ms[5] == Member("unit", OptionTree(c.unit)) && ms[6] == Member("window_start", OptionTree(c.windowStart))
      && ms[7] == Member("window_end", OptionTree(c.windowEnd)) && ms[8] == Member("evidence", JObj(e))
      && ms[9] == Member("opened_by", JStr(c.openedBy)) && ms[10] == Member("opened_at", JStr(iso(claim.openedAt)))
      && ms[11] == Member("status", JStr(StatusText(claim.status)))
      && ms[12] == Member("updated_at", JStr(iso(claim.updatedAt)))
      && ms[13] == Member("locked_by", OptionTree(claim.lockedBy))
      && (forall i | 0 <= i < 5 :: ms[..5][i] == ms[i])
  {
    hide KindText, StatusText, OptionTree;
  }

  lemma ClaimReads(iso: Iso, v: Json, claim: Claims.Claim)
    requires IsClaimTree(iso, v, claim)
    ensures TellsClaim(iso, SortKeys(v), claim)
  {
    hide SortKeys, Under, OptionTree, KindText, StatusText, IsDictOf, TellsContent, UniqueKeys, ClaimMembers, IsStatus;
    var e :| IsDictOf(e, claim.content.evidence, (s: string) => JStr(s)) && v == JObj(ClaimMembers(iso, claim, e));
    var ms, w := ClaimMembers(iso, claim, e), SortKeys(v);
    ContentReads(iso, claim, e);
    ClaimKeysDiffer(iso, claim, e);
    SortedFields(ms);
    TextsStay();
    ClaimFieldsAre(iso, claim, e);
    assert Under(w, "claim_id", SortKeys(ms[0].value)) && Under(w, "opened_at", SortKeys(ms[10].value));
    assert Under(w, "status", SortKeys(ms[11].value)) && Under(w, "updated_at", SortKeys(ms[12].value));
    StatusIs(claim.status);
    OptionReads(w, ms[13], claim.lockedBy);
  }

  lemma MoveReads(iso: Iso, t: Claims.Transition)
    ensures TellsMove(iso, SortKeys(JObj(MoveMembers(iso, t))), t)
  {
    hide SortKeys, Under, OptionTree, ActionText, StatusText, UniqueKeys, IsStatus, IsAction;
    var ms := MoveMembers(iso, t);
    var w := SortKeys(JObj(ms));
    MoveKeysDiffer(iso, t);
    SortedFields(ms);
    TextsStay();
    assert Under(w, "record", SortKeys(ms[0].value)) && Under(w, "claim_id", SortKeys(ms[1].value));
    assert Under(w, "action", SortKeys(ms[2].value)) && Under(w, "from_status", SortKeys(ms[3].value));
    assert Under(w, "to_status", SortKeys(ms[4].value)) && Under(w, "actor", SortKeys(ms[5].value));
    assert Under(w, "at", SortKeys(ms[6].value));
    ActionIs(t.action);
    StatusIs(t.from);
    StatusIs(t.target);
    OptionReads(w, ms[7], t.note);
    OptionReads(w, ms[8], t.confirmedBy);
  }

  lemma HistoryReads(iso: Iso, ts: seq<Claims.Transition>)
    ensures TellsHistory(iso, SortKeys(JArr(MoveTrees(iso, ts))), ts)
  {
    hide SortKeys, TellsMove, MoveTrees;
    MoveTreesAt(iso, ts);
    ItemsStay(MoveTrees(iso, ts));
    forall i | 0 <= i < |ts| ensures TellsMove(iso, SortKeysItems(MoveTrees(iso, ts))[i], ts[i]) {
      MoveReads(iso, ts[i]);
    }
  }

  lemma HistoriesRead(iso: Iso, h: seq<Member>, history: map<string, seq<Claims.Transition>>)
    requires IsDictOf(h, history, (ts: seq<Claims.Transition>) => JArr(MoveTrees(iso, ts)))
    ensures TellsHistories(iso, SortKeys(JObj(h)), history)
  {
    hide SortKeys, HasKey, Get, KeysAscend, IsDictOf, TellsHistory, MoveTrees;
    var tree := (ts: seq<Claims.Transition>) => JArr(MoveTrees(iso, ts));
    SortedIs(h);
    var s := SortedDict(h, history, tree);
    forall id | id in history ensures TellsHistory(iso, Get(s, id), history[id]) {
      assert Get(s, id) == SortKeys(tree(history[id]));
      HistoryReads(iso, history[id]);
    }
  }

  lemma ClaimsRead(iso: Iso, cs: seq<Json>, claims: seq<Claims.Claim>)
    requires |cs| == |claims| && forall i | 0 <= i < |cs| :: IsClaimTree(iso, cs[i], claims[i])
    ensures TellsClaims(iso, SortKeys(JArr(cs)), claims)
  {
    hide SortKeys, TellsClaim, IsClaimTree;
    ItemsStay(cs);
    forall i | 0 <= i < |cs| ensures TellsClaim(iso, SortKeysItems(cs)[i], claims[i]) {
      ClaimReads(iso, cs[i], claims[i]);
    }
  }

  /**
   The bytes of an export, read by a JSON reader, are one value with nothing left over, and it tells
   the package: every field of every claim and of every transition stands under its own name.
   */
  lemma ExportReads(iso: Iso, v: Json, p: Claims.Package) returns (w: Json)
    requires IsPackageTree(iso, v, p)
    ensures ReadValue(CanonicalText(v)) == Some(Read(w, "")) && TellsPackage(iso, w, p)
  {
    hide SortKeys, IsClaimTree, IsDictOf, Print, ReadValue, Under, TellsClaims, TellsHistories, UniqueKeys;
    var claims, history :|
      && v == JObj(PackageMembers(claims, history))
      && |claims| == |p.claims|
      && (forall i | 0 <= i < |claims| :: IsClaimTree(iso, claims[i], p.claims[i]))
      && IsDictOf(history, p.history, (ts: seq<Claims.Transition>) => JArr(MoveTrees(iso, ts)));
    var ms := PackageMembers(claims, history);
    PackageKeysDiffer(claims, history);
    w := SortKeys(v);
    PrintReadsBack(w);
    SortedFields(ms);
    TextsStay();
    assert Under(w, "schema", SortKeys(ms[0].value)) && Under(w, "claims", SortKeys(ms[1].value));
    assert Under(w, "history", SortKeys(ms[2].value));
    ClaimsRead(iso, claims, p.claims);
    HistoriesRead(iso, history, p.history);
  }

  lemma PackageKeysDiffer(claims: seq<Json>, history: seq<Member>)
    ensures UniqueKeys(PackageMembers(claims, history))
  {
    assert "schema"[0] == 's' && "claims"[0] == 'c' && "history"[0] == 'h';
  }
}
