/**
 The bytes of a close package: canonical JSON of its claims and histories, and the content hash.
 Two exports have the same bytes exactly when they hold the same package.
 */
module ClaimExport {
  import opened Outcomes
  import opened CanonicalJson
  import opened CanonicalJsonProofs
  import Claims

  const CLAIMS_SCHEMA := "cubiczan-erp/claim-lifecycle/v1"

  /** How timestamps are written. */
  type Iso = int -> string

  ghost predicate IsInjective(iso: Iso) {
    forall a, b :: iso(a) == iso(b) ==> a == b
  }

  /* ---------- a package as a tree ---------- */

  function KindText(kind: Claims.Kind): string {
    match kind
    case KpiMetric => "kpi_metric"
    case SpendDecision => "spend_decision"
    case ClosePeriod => "close_period"
  }

  function StatusText(status: Claims.Status): string {
    match status
    case Draft => "draft"
    case Submitted => "submitted"
    case UnderReview => "under_review"
    case Approved => "approved"
    case Locked => "locked"
    case Rejected => "rejected"
    case Withdrawn => "withdrawn"
  }

  function ActionText(action: Claims.Action): string {
    match action
    case Submit => "submit"
    case StartReview => "start_review"
    case Approve => "approve"
    case Reject => "reject"
    case Lock => "lock"
    case Withdraw => "withdraw"
  }

  function OptionTree(text: Option<string>): Json {
    if text.Some? then JStr(text.value) else JNull
  }

  /** A claim as a dict; `evidence` holds the entries of its evidence in whatever order. */
  function ClaimMembers(iso: Iso, claim: Claims.Claim, evidence: seq<Member>): (r: seq<Member>)
    ensures |r| == 14
  {
    var c := claim.content;
    [Member("claim_id", JStr(claim.id)),
     Member("kind", JStr(KindText(c.kind))),
     Member("subject", JStr(c.subject)),
     Member("statement", JStr(c.statement)),
     Member("asserted_value", JStr(c.assertedValue)),
     Member("unit", OptionTree(c.unit)),
     Member("window_start", OptionTree(c.windowStart)),
     Member("window_end", OptionTree(c.windowEnd)),
     Member("evidence", JObj(evidence)),
     Member("opened_by", JStr(c.openedBy)),
     Member("opened_at", JStr(iso(claim.openedAt))),
     Member("status", JStr(StatusText(claim.status))),
     Member("updated_at", JStr(iso(claim.updatedAt))),
     Member("locked_by", OptionTree(claim.lockedBy))]
  }

  function MoveMembers(iso: Iso, t: Claims.Transition): (r: seq<Member>)
    ensures |r| == 9
  {
    [Member("record", JStr("TRANSITION")),
     Member("claim_id", JStr(t.id)),
     Member("action", JStr(ActionText(t.action))),
     Member("from_status", JStr(StatusText(t.from))),
     Member("to_status", JStr(StatusText(t.target))),
     Member("actor", JStr(t.actor)),
     Member("at", JStr(iso(t.at))),
     Member("note", OptionTree(t.note)),
     Member("confirmed_by", OptionTree(t.confirmedBy))]
  }

  function MoveTrees(iso: Iso, moves: seq<Claims.Transition>): seq<Json> {
    if moves == [] then [] else [JObj(MoveMembers(iso, moves[0]))] + MoveTrees(iso, moves[1..])
  }

  /** The entries of a map, each key once, in whatever order. */
  ghost predicate IsDictOf<V(!new)>(members: seq<Member>, m: map<string, V>, tree: V -> Json) {
    && UniqueKeys(members)
    && forall key :: (HasKey(members, key) <==> key in m) && (key in m ==> Get(members, key) == tree(m[key]))
  }

  ghost predicate IsClaimTree(iso: Iso, v: Json, claim: Claims.Claim) {
    exists evidence :: IsDictOf(evidence, claim.content.evidence, (s: string) => JStr(s))
                       && v == JObj(ClaimMembers(iso, claim, evidence))
  }

  function PackageMembers(claims: seq<Json>, history: seq<Member>): (r: seq<Member>)
    ensures |r| == 3
  {
    [Member("schema", JStr(CLAIMS_SCHEMA)), Member("claims", JArr(claims)), Member("history", JObj(history))]
  }

  /** A tree of the package: its dicts may list their entries in any order. */
  ghost predicate IsPackageTree(iso: Iso, v: Json, package: Claims.Package) {
    exists claims, history ::
      && v == JObj(PackageMembers(claims, history))
      && |claims| == |package.claims|
      && (forall i | 0 <= i < |claims| :: IsClaimTree(iso, claims[i], package.claims[i]))
      && IsDictOf(history, package.history, (ts: seq<Claims.Transition>) => JArr(MoveTrees(iso, ts)))
  }

  /* ---------- dicts of maps ---------- */

  ghost predicate HasNoNull<V(!new)>(tree: V -> Json) {
    forall v :: !tree(v).JNull?
  }

  ghost predicate Separates<V(!new)>(tree: V -> Json) {
    forall v, w :: SortKeys(tree(v)) == SortKeys(tree(w)) ==> v == w
  }

  /** What sorting makes of the entries of a map: ascending, nothing null, and every lookup. */
  lemma SortedDict<V(!new)>(a: seq<Member>, m: map<string, V>, tree: V -> Json) returns (s: seq<Member>)
    requires IsDictOf(a, m, tree) && HasNoNull(tree)
    ensures s == SortKeys(JObj(a)).members && KeysAscend(s) && forall e | e in s :: !e.value.JNull?
    ensures forall key :: HasKey(s, key) <==> key in m
    ensures forall key | key in m :: Get(s, key) == SortKeys(tree(m[key]))
  {
    hide SortByKey, SortKeysMembers, Get, HasKey, KeysAscend;
    var x := SortKeysMembers(a);
    SortKeysAll(a);
    assert UniqueKeys(x);
    s := SortByKey(x);
    SortCorrect(x, "");
    forall key
      ensures HasKey(s, key) <==> key in m
      ensures key in m ==> Get(s, key) == SortKeys(tree(m[key]))
    {
      SortCorrect(x, key);
      SortKeysGets(a, key);
    }
    forall e | e in s ensures !e.value.JNull? {
      assert e in multiset(s);
      assert e in x;
      GetIsMember(x, e);
      HasKeyIff(x, e.key);
      SortKeysGets(a, e.key);
      NotNull(tree(m[e.key]));
    }
  }

  lemma NotNull(v: Json)
    requires !v.JNull?
    ensures !SortKeys(v).JNull?
  {
  }

  /** Entries of two maps, in any order, sort alike exactly when the maps are equal. */
  lemma DictsIff<V(!new)>(a: seq<Member>, m: map<string, V>, b: seq<Member>, n: map<string, V>, tree: V -> Json)
    requires IsDictOf(a, m, tree) && IsDictOf(b, n, tree) && HasNoNull(tree) && Separates(tree)
    ensures SortKeys(JObj(a)) == SortKeys(JObj(b)) <==> m == n
  {
    hide SortKeys, Get, HasKey, KeysAscend, UniqueKeys;
    var s := SortedDict(a, m, tree);
    var t := SortedDict(b, n, tree);
    SortedIsDict(a);
    SortedIsDict(b);
    if s == t {
      assert forall key :: key in m <==> key in n;
      forall key | key in m ensures m[key] == n[key] {
        assert SortKeys(tree(m[key])) == SortKeys(tree(n[key]));
      }
      assert m == n;
    }
    if m == n {
      forall key ensures Get(s, key) == Get(t, key) {
        if key !in m {
          HasKeyIff(s, key);
          HasKeyIff(t, key);
        }
      }
      LookupsDetermine(s, t);
    }
  }

  lemma SortedIsDict(a: seq<Member>)
    ensures SortKeys(JObj(a)).JObj?
  {
  }

  /* ---------- claims and their moves ---------- */

  lemma KindsDiffer(a: Claims.Kind, b: Claims.Kind)
    ensures KindText(a) == KindText(b) ==> a == b
  {
    assert KindText(a)[0] == KindText(b)[0] ==> a == b;
  }

  lemma StatusesDiffer(a: Claims.Status, b: Claims.Status)
    ensures StatusText(a) == StatusText(b) ==> a == b
  {
    assert |StatusText(a)| == |StatusText(b)| && StatusText(a)[0] == StatusText(b)[0] ==> a == b;
  }

  lemma ActionsDiffer(a: Claims.Action, b: Claims.Action)
    ensures ActionText(a) == ActionText(b) ==> a == b
  {
    assert |ActionText(a)| == |ActionText(b)| && ActionText(a)[0] == ActionText(b)[0] ==> a == b;
  }

  lemma OptionsDiffer(a: Option<string>, b: Option<string>)
    ensures SortKeys(OptionTree(a)) == SortKeys(OptionTree(b)) ==> a == b
  {
  }

  lemma TextsAreFixed()
    ensures forall s :: SortKeys(JStr(s)) == JStr(s)
  {
  }

  lemma ClaimKeysDiffer(iso: Iso, claim: Claims.Claim, evidence: seq<Member>)
    ensures UniqueKeys(ClaimMembers(iso, claim, evidence))
  {
    assert "claim_id"[0] == 'c' && "evidence"[0] == 'e' && "kind"[0] == 'k' && "unit"[0] == 'u';
    assert "statement"[0] == 's' && "opened_by"[7] == 'b' && "opened_at"[7] == 'a' && "opened_by"[0] == 'o';
    assert "opened_at"[0] == 'o' && "locked_by"[0] == 'l' && "window_end"[0] == 'w' && "updated_at"[0] == 'u';
  }

  lemma MoveKeysDiffer(iso: Iso, t: Claims.Transition)
    ensures UniqueKeys(MoveMembers(iso, t))
  {
    assert "record"[0] == 'r' && "action"[0] == 'a';
  }

  lemma ClaimsIff(iso: Iso, v: Json, c: Claims.Claim, w: Json, d: Claims.Claim)
    requires IsInjective(iso) && IsClaimTree(iso, v, c) && IsClaimTree(iso, w, d)
    ensures SortKeys(v) == SortKeys(w) <==> c == d
  {
    hide ClaimMembers, SortKeys, KindText, StatusText, OptionTree;
    var text := (s: string) => JStr(s);
    var e :| IsDictOf(e, c.content.evidence, text) && v == JObj(ClaimMembers(iso, c, e));
    var f :| IsDictOf(f, d.content.evidence, text) && w == JObj(ClaimMembers(iso, d, f));
    assert Separates(text) by {
      forall s, t | SortKeys(text(s)) == SortKeys(text(t)) ensures s == t {
        TextsAreFixed();
      }
    }
    DictsIff(e, c.content.evidence, f, d.content.evidence, text);
    ClaimKeysDiffer(iso, c, e);
    ClaimMembersIff(iso, c, e, d, f);
    var a, b := ClaimMembers(iso, c, e), ClaimMembers(iso, d, f);
    FieldsIff(a, b);
  }

  /** The fourteen values, compared one by one. */
  lemma ClaimMembersIff(iso: Iso, c: Claims.Claim, e: seq<Member>, d: Claims.Claim, f: seq<Member>)
    requires IsInjective(iso)
    requires SortKeys(JObj(e)) == SortKeys(JObj(f)) <==> c.content.evidence == d.content.evidence
    ensures
      var a, b := ClaimMembers(iso, c, e), ClaimMembers(iso, d, f);
      && SameKeys(a, b)
      && ((forall i | 0 <= i < |a| :: SortKeys(a[i].value) == SortKeys(b[i].value)) <==> c == d)
  {
    hide SortKeys, KindText, StatusText, OptionTree, ClaimMembers;
    var a, b := ClaimMembers(iso, c, e), ClaimMembers(iso, d, f);
    SameClaimKeys(iso, c, e, d, f);
    if forall i | 0 <= i < |a| :: SortKeys(a[i].value) == SortKeys(b[i].value) {
      ContentFieldsTell(iso, c, e, d, f);
      StatusFieldsTell(iso, c, e, d, f);
    }
    if c == d {
      SameClaimValues(iso, c, e, f);
    }
  }

  lemma SameClaimKeys(iso: Iso, c: Claims.Claim, e: seq<Member>, d: Claims.Claim, f: seq<Member>)
    ensures SameKeys(ClaimMembers(iso, c, e), ClaimMembers(iso, d, f))
  {
    hide KindText, StatusText, OptionTree;
  }

  lemma SameClaimValues(iso: Iso, c: Claims.Claim, e: seq<Member>, f: seq<Member>)
    requires SortKeys(JObj(e)) == SortKeys(JObj(f))
    ensures
      var a, b := ClaimMembers(iso, c, e), ClaimMembers(iso, c, f);
      forall i | 0 <= i < |a| :: SortKeys(a[i].value) == SortKeys(b[i].value)
  {
    hide SortKeys, KindText, StatusText, OptionTree;
    var a, b := ClaimMembers(iso, c, e), ClaimMembers(iso, c, f);
    assert forall i | 0 <= i < |a| && i != 8 :: a[i].value == b[i].value;
  }

  /** What was claimed, from the fields that tell it. */
  lemma ContentFieldsTell(iso: Iso, c: Claims.Claim, e: seq<Member>, d: Claims.Claim, f: seq<Member>)
    requires
      var a, b := ClaimMembers(iso, c, e), ClaimMembers(iso, d, f);
      forall i | 0 <= i < |a| :: SortKeys(a[i].value) == SortKeys(b[i].value)
    requires SortKeys(JObj(e)) == SortKeys(JObj(f)) <==> c.content.evidence == d.content.evidence
    ensures c.content == d.content
  {
    hide SortKeys, KindText, StatusText, OptionTree;
    var a, b := ClaimMembers(iso, c, e), ClaimMembers(iso, d, f);
    KindsDiffer(c.content.kind, d.content.kind);
    OptionsDiffer(c.content.unit, d.content.unit);
    OptionsDiffer(c.content.windowStart, d.content.windowStart);
    OptionsDiffer(c.content.windowEnd, d.content.windowEnd);
    TextsAreFixed();
    assert SortKeys(a[1].value) == SortKeys(b[1].value) && SortKeys(a[2].value) == SortKeys(b[2].value);
    assert SortKeys(a[3].value) == SortKeys(b[3].value) && SortKeys(a[4].value) == SortKeys(b[4].value);
    assert SortKeys(a[5].value) == SortKeys(b[5].value) && SortKeys(a[6].value) == SortKeys(b[6].value);
    assert SortKeys(a[7].value) == SortKeys(b[7].value) && SortKeys(a[8].value) == SortKeys(b[8].value);
    assert SortKeys(a[9].value) == SortKeys(b[9].value);
  }

  /** Where the claim stands, from the fields that tell it. */
  lemma StatusFieldsTell(iso: Iso, c: Claims.Claim, e: seq<Member>, d: Claims.Claim, f: seq<Member>)
    requires IsInjective(iso)
    requires
      var a, b := ClaimMembers(iso, c, e), ClaimMembers(iso, d, f);
      forall i | 0 <= i < |a| :: SortKeys(a[i].value) == SortKeys(b[i].value)
    ensures c.id == d.id && c.openedAt == d.openedAt && c.status == d.status && c.updatedAt == d.updatedAt
    ensures c.lockedBy == d.lockedBy
  {
    hide SortKeys, KindText, StatusText, OptionTree;
    var a, b := ClaimMembers(iso, c, e), ClaimMembers(iso, d, f);
    StatusesDiffer(c.status, d.status);
    OptionsDiffer(c.lockedBy, d.lockedBy);
    TextsAreFixed();
    assert SortKeys(a[0].value) == SortKeys(b[0].value) && SortKeys(a[10].value) == SortKeys(b[10].value);
    assert SortKeys(a[11].value) == SortKeys(b[11].value) && SortKeys(a[12].value) == SortKeys(b[12].value);
    assert SortKeys(a[13].value) == SortKeys(b[13].value);
  }

  lemma MovesIff(iso: Iso, t: Claims.Transition, u: Claims.Transition)
    requires IsInjective(iso)
    ensures SortKeys(JObj(MoveMembers(iso, t))) == SortKeys(JObj(MoveMembers(iso, u))) <==> t == u
  {
    hide SortKeys, ActionText, StatusText, OptionTree, UniqueKeys;
    var a, b := MoveMembers(iso, t), MoveMembers(iso, u);
    MoveKeysDiffer(iso, t);
    FieldsIff(a, b);
    ActionsDiffer(t.action, u.action);
    StatusesDiffer(t.from, u.from);
    StatusesDiffer(t.target, u.target);
    OptionsDiffer(t.note, u.note);
    OptionsDiffer(t.confirmedBy, u.confirmedBy);
    TextsAreFixed();
    if forall i | 0 <= i < |a| :: SortKeys(a[i].value) == SortKeys(b[i].value) {
      assert SortKeys(a[1].value) == SortKeys(b[1].value) && SortKeys(a[2].value) == SortKeys(b[2].value);
      assert SortKeys(a[3].value) == SortKeys(b[3].value) && SortKeys(a[4].value) == SortKeys(b[4].value);
      assert SortKeys(a[5].value) == SortKeys(b[5].value) && SortKeys(a[6].value) == SortKeys(b[6].value);
      assert SortKeys(a[7].value) == SortKeys(b[7].value) && SortKeys(a[8].value) == SortKeys(b[8].value);
    }
  }

  lemma {:induction false} MoveTreesAt(iso: Iso, moves: seq<Claims.Transition>)
    ensures |MoveTrees(iso, moves)| == |moves|
    ensures forall i | 0 <= i < |moves| :: MoveTrees(iso, moves)[i] == JObj(MoveMembers(iso, moves[i]))
  {
    if moves != [] {
      MoveTreesAt(iso, moves[1..]);
    }
  }

  lemma HistoriesIff(iso: Iso, ts: seq<Claims.Transition>, us: seq<Claims.Transition>)
    requires IsInjective(iso)
    ensures SortKeys(JArr(MoveTrees(iso, ts))) == SortKeys(JArr(MoveTrees(iso, us))) <==> ts == us
  {
    hide SortKeys, MoveMembers, MoveTrees;
    MoveTreesAt(iso, ts);
    MoveTreesAt(iso, us);
    SortKeysOfList(MoveTrees(iso, ts), MoveTrees(iso, us));
    if SortKeys(JArr(MoveTrees(iso, ts))) == SortKeys(JArr(MoveTrees(iso, us))) {
      forall i | 0 <= i < |ts| ensures ts[i] == us[i] {
        assert SortKeys(MoveTrees(iso, ts)[i]) == SortKeys(MoveTrees(iso, us)[i]);
        MovesIff(iso, ts[i], us[i]);
      }
      assert ts == us;
    }
  }

  /* ---------- whole packages ---------- */

  /**
   Byte for byte: whatever order their dicts were built in, two exports have the same text exactly
   when they hold the same claims in the same order with the same histories.
   */
  lemma ExportBytesIff(iso: Iso, v: Json, a: Claims.Package, w: Json, b: Claims.Package)
    requires IsInjective(iso) && IsPackageTree(iso, v, a) && IsPackageTree(iso, w, b)
    ensures CanonicalText(v) == CanonicalText(w) <==> a == b
  {
    hide SortKeys, IsClaimTree, IsDictOf, PackageMembers, Print;
    var trail := (ts: seq<Claims.Transition>) => JArr(MoveTrees(iso, ts));
    var cs, h :| && v == JObj(PackageMembers(cs, h)) && |cs| == |a.claims|
                 && (forall i | 0 <= i < |cs| :: IsClaimTree(iso, cs[i], a.claims[i]))
                 && IsDictOf(h, a.history, trail);
    var ds, k :| && w == JObj(PackageMembers(ds, k)) && |ds| == |b.claims|
                 && (forall i | 0 <= i < |ds| :: IsClaimTree(iso, ds[i], b.claims[i]))
                 && IsDictOf(k, b.history, trail);
    if CanonicalText(v) == CanonicalText(w) {
      PrintInjective(SortKeys(v), SortKeys(w));
    }
    assert Separates(trail) by {
      forall ts, us | SortKeys(trail(ts)) == SortKeys(trail(us)) ensures ts == us {
        HistoriesIff(iso, ts, us);
      }
    }
    DictsIff(h, a.history, k, b.history, trail);
    ClaimListsIff(iso, cs, a.claims, ds, b.claims);
    PackageFieldsIff(cs, h, ds, k);
  }

  lemma ClaimListsIff(iso: Iso, cs: seq<Json>, a: seq<Claims.Claim>, ds: seq<Json>, b: seq<Claims.Claim>)
    requires IsInjective(iso) && |cs| == |a| && |ds| == |b|
    requires forall i | 0 <= i < |cs| :: IsClaimTree(iso, cs[i], a[i])
    requires forall i | 0 <= i < |ds| :: IsClaimTree(iso, ds[i], b[i])
    ensures SortKeys(JArr(cs)) == SortKeys(JArr(ds)) <==> a == b
  {
    hide SortKeys, IsClaimTree;
    SortKeysOfList(cs, ds);
    forall i | 0 <= i < |cs| && i < |ds| ensures SortKeys(cs[i]) == SortKeys(ds[i]) <==> a[i] == b[i] {
      ClaimsIff(iso, cs[i], a[i], ds[i], b[i]);
    }
  }

  lemma PackageFieldsIff(cs: seq<Json>, h: seq<Member>, ds: seq<Json>, k: seq<Member>)
    ensures SortKeys(JObj(PackageMembers(cs, h))) == SortKeys(JObj(PackageMembers(ds, k)))
       <==> SortKeys(JArr(cs)) == SortKeys(JArr(ds)) && SortKeys(JObj(h)) == SortKeys(JObj(k))
  {
    hide SortKeys;
    var a, b := PackageMembers(cs, h), PackageMembers(ds, k);
    assert "schema"[0] == 's' && "claims"[0] == 'c' && "history"[0] == 'h';
    FieldsIff(a, b);
    if forall i | 0 <= i < |a| :: SortKeys(a[i].value) == SortKeys(b[i].value) {
      assert SortKeys(a[1].value) == SortKeys(b[1].value) && SortKeys(a[2].value) == SortKeys(b[2].value);
    }
  }

  /* ---------- rendering ---------- */

  datatype Rendered = Rendered(text: string, contentHash: string)

  method EvidenceMembers(evidence: map<string, string>) returns (members: seq<Member>)
    ensures IsDictOf(members, evidence, (s: string) => JStr(s))
  {
    hide HasKey, Get, UniqueKeys;
    members := [];
    NoEntries(evidence, (s: string) => JStr(s));
    var left := evidence.Keys;
    while left != {}
      invariant left <= evidence.Keys
      invariant IsDictOf(members, evidence - left, (s: string) => JStr(s))
      decreases left
    {
      var key :| key in left;
      OneMoreEntry(members, evidence, left, key, (s: string) => JStr(s));
      members := members + [Member(key, JStr(evidence[key]))];
      left := left - {key};
    }
    assert evidence - {} == evidence;
  }

  lemma NoEntries<V(!new)>(m: map<string, V>, tree: V -> Json)
    ensures IsDictOf([], m - m.Keys, tree)
  {
  }

  lemma OneMoreEntry<V(!new)>(members: seq<Member>, m: map<string, V>, left: set<string>, key: string, tree: V -> Json)
    requires key in left && left <= m.Keys && IsDictOf(members, m - left, tree)
    ensures IsDictOf(members + [Member(key, tree(m[key]))], m - (left - {key}), tree)
  {
    hide Get, HasKey;
    var more := members + [Member(key, tree(m[key]))];
    assert !HasKey(members, key);
    HasKeyIff(members, key);
    assert UniqueKeys(more);
    forall k
      ensures HasKey(more, k) <==> k in m - (left - {key})
      ensures k in m - (left - {key}) ==> Get(more, k) == tree(m[k])
    {
      AppendGets(members, Member(key, tree(m[key])), k);
    }
  }

  lemma {:induction false} AppendGets(members: seq<Member>, m: Member, key: string)
    ensures HasKey(members + [m], key) <==> HasKey(members, key) || key == m.key
    ensures HasKey(members, key) ==> Get(members + [m], key) == Get(members, key)
    ensures !HasKey(members, key) && key == m.key ==> Get(members + [m], key) == m.value
    decreases |members|
  {
    if members == [] {
      assert members + [m] == [m];
    } else {
      assert (members + [m])[1..] == members[1..] + [m];
      AppendGets(members[1..], m, key);
    }
  }

  method HistoryMembers(iso: Iso, history: map<string, seq<Claims.Transition>>) returns (members: seq<Member>)
    ensures IsDictOf(members, history, (ts: seq<Claims.Transition>) => JArr(MoveTrees(iso, ts)))
  {
    hide HasKey, Get, UniqueKeys;
    ghost var tree := (ts: seq<Claims.Transition>) => JArr(MoveTrees(iso, ts));
    members := [];
    NoEntries(history, tree);
    var left := history.Keys;
    while left != {}
      invariant left <= history.Keys
      invariant IsDictOf(members, history - left, tree)
      decreases left
    {
      var key :| key in left;
      OneMoreEntry(members, history, left, key, tree);
      members := members + [Member(key, JArr(MoveTrees(iso, history[key])))];
      left := left - {key};
    }
    assert history - {} == history;
  }

  /** The bytes of an export, as text, and their hash. */
  method Render(iso: Iso, sha256: string -> string, package: Claims.Package) returns (r: Rendered)
    ensures exists v :: IsPackageTree(iso, v, package) && r == Rendered(CanonicalText(v), sha256(CanonicalText(v)))
  {
    hide IsDictOf, ClaimMembers, PackageMembers;
    var claims: seq<Json> := [];
    for i := 0 to |package.claims|
      invariant |claims| == i && forall k | 0 <= k < i :: IsClaimTree(iso, claims[k], package.claims[k])
    {
      var claim := package.claims[i];
      var evidence := EvidenceMembers(claim.content.evidence);
      claims := claims + [JObj(ClaimMembers(iso, claim, evidence))];
    }
    var history := HistoryMembers(iso, package.history);
    var v := JObj(PackageMembers(claims, history));
    assert IsPackageTree(iso, v, package);
    r := Rendered(CanonicalText(v), sha256(CanonicalText(v)));
  }
}
