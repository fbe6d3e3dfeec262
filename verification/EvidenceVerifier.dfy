/**
 The verifier itself: it walks claims and evidence, collects verdicts, and turns them into an exit
 code that is 0 exactly for a verified matrix.
 */
module EvidenceVerifier {
  import opened Outcomes
  import opened PyText
  import opened YamlScan
  import opened YamlParser
  import opened YamlReader
  import opened EvidenceMatrix

  /** What is wrong with a row; the wording of the messages is not modelled. */
  datatype Reason =
    | UnknownFields | BadId | DuplicateId(first: nat) | NoText | NoSource | SourceNamesNoFile | SourceMissing
    | NoEvidence | NotAMapping | UnknownType | BadRef | CheckFailed

  /** One line of the report: the row and the id it goes by, what was looked at, and why it failed. */
  datatype Verdict = Verdict(row: nat, id: string, ref: string, reason: Option<Reason>)

  datatype GlobalFailure = UnknownTopLevel | BadRepo | ClaimsNotAList | NoClaims | ClaimNotAMapping(index: nat)

  datatype Report = Report(verdicts: seq<Verdict>, failures: seq<GlobalFailure>, claims: nat)

  datatype Unusable = RootNotAMapping | BadSchemaVersion | Unreadable(error: YamlError)

  predicate AllPass(verdicts: seq<Verdict>) {
    forall k | 0 <= k < |verdicts| :: verdicts[k].reason.None?
  }

  /** Every verdict is about this row, under this id. */
  predicate AreOf(verdicts: seq<Verdict>, row: nat, id: string) {
    forall k | 0 <= k < |verdicts| :: verdicts[k].row == row && verdicts[k].id == id
  }

  /** Every verdict is about a claim of the list, under the id that claim goes by. */
  predicate LabelsFit(env: Env, claims: seq<Value>, verdicts: seq<Verdict>) {
    forall k | 0 <= k < |verdicts| ::
      var v := verdicts[k];
      v.row < |claims| && claims[v.row].Map? && v.id == Label(env, claims[v.row], v.row)
  }

  /** The rows with a failing verdict, and the ids they go by. */
  function FailingRows(verdicts: seq<Verdict>): set<nat> {
    set k: nat | k < |verdicts| && verdicts[k].reason.Some? :: verdicts[k].row
  }

  function FailingIds(verdicts: seq<Verdict>): set<string> {
    set k: nat | k < |verdicts| && verdicts[k].reason.Some? :: verdicts[k].id
  }

  const EXIT_OK := 0
  const EXIT_FAILED := 1
  const EXIT_UNUSABLE := 2

  /** The verdict on one piece of evidence. */
  method CheckEvidenceEntry(env: Env, entry: Value) returns (ref: string, reason: Option<Reason>)
    ensures reason.None? <==> EvidenceHolds(env, entry)
  {
    hide TestHolds, ScriptHolds, ManifestHolds, ArtifactHolds, KeysWithin;
    if !entry.Map? {
      return "", Some(NotAMapping);
    }
    var fields := entry.entries;
    var kind := Get(fields, "type");
    if kind.None? || !kind.value.Str? || kind.value.s !in EVIDENCE_KEYS {
      return "", Some(UnknownType);
    }
    var t := kind.value.s;
    if !KeysWithin(fields, EVIDENCE_KEYS[t]) {
      return "?", Some(UnknownFields);
    }
    var text := TextAt(fields, "ref");
    if text.None? {
      return "?", Some(BadRef);
    }
    ref := Strip(text.value);
    var holds;
    if t == "test" {
      holds := TestHolds(env, ref);
    } else if t == "script" {
      holds := ScriptHolds(env, fields, ref);
    } else if t == "manifest_field" {
      holds := ManifestHolds(env, fields, ref);
    } else {
      holds := ArtifactHolds(env, fields, ref);
    }
    reason := if holds then None else Some(CheckFailed);
  }

  /** The verdicts on the source locator. */
  method CheckSource(env: Env, fields: seq<Entry>, row: nat, id: string) returns (verdicts: seq<Verdict>)
    ensures AreOf(verdicts, row, id)
    ensures AllPass(verdicts) <==> SourceHolds(env, fields)
  {
    verdicts := [];
    var source := TextAt(fields, "source");
    if source.None? {
      FailsAlone(Verdict(row, id, "<source>", Some(NoSource)));
      return [Verdict(row, id, "<source>", Some(NoSource))];
    }
    var file := SourceFile(source.value);
    if file == "" {
      FailsAlone(Verdict(row, id, Strip(source.value), Some(SourceNamesNoFile)));
      return [Verdict(row, id, Strip(source.value), Some(SourceNamesNoFile))];
    } else if file !in env.files {
      FailsAlone(Verdict(row, id, Strip(source.value), Some(SourceMissing)));
      return [Verdict(row, id, Strip(source.value), Some(SourceMissing))];
    }
  }

  /** The verdicts on the evidence of a row. */
  method CheckEvidence(env: Env, fields: seq<Entry>, row: nat, id: string) returns (verdicts: seq<Verdict>)
    ensures AreOf(verdicts, row, id)
    ensures AllPass(verdicts) <==> EvidenceListHolds(env, fields)
  {
    hide EvidenceHolds;
    var evidence := Get(fields, "evidence");
    if evidence.None? || !evidence.value.List? || evidence.value.items == [] {
      FailsAlone(Verdict(row, id, "<evidence>", Some(NoEvidence)));
      return [Verdict(row, id, "<evidence>", Some(NoEvidence))];
    }
    var items := evidence.value.items;
    verdicts := [];
    for k := 0 to |items|
      invariant AreOf(verdicts, row, id)
      invariant AllPass(verdicts) <==> forall j | 0 <= j < k :: EvidenceHolds(env, items[j])
    {
      var ref, reason := CheckEvidenceEntry(env, items[k]);
      MorePass(verdicts, Verdict(row, id, ref, reason));
      verdicts := verdicts + [Verdict(row, id, ref, reason)];
    }
  }

  /**
   The verdicts on one claim row. It passes exactly when the row holds and its id is new; a valid
   new id is remembered with the row's index.
   */
  method VerifyClaim(env: Env, claim: Value, index: nat, seen: map<string, nat>)
    returns (verdicts: seq<Verdict>, seen': map<string, nat>)
    requires claim.Map?
    ensures AllPass(verdicts) <==> ClaimHolds(env, claim) && ClaimIdOf(claim).value !in seen
    ensures AreOf(verdicts, index, Label(env, claim, index))
    ensures seen' == if ClaimIdOf(claim).Some? && ClaimIdOf(claim).value !in seen
                     then seen[ClaimIdOf(claim).value := index] else seen
  {
    hide EvidenceListHolds, SourceHolds, KeysWithin, ClaimIdOf, TextAt, AllPass, AreOf, Label;
    var name := Label(env, claim, index);
    NoneOf(index, name);
    verdicts, seen' := [], seen;
    NonePass();
    var fields := claim.entries;
    if !KeysWithin(fields, CLAIM_KEYS) {
      MorePass(verdicts, Verdict(index, name, "<schema>", Some(UnknownFields)));
      MoreOf(verdicts, Verdict(index, name, "<schema>", Some(UnknownFields)));
      verdicts := verdicts + [Verdict(index, name, "<schema>", Some(UnknownFields))];
    }
    var id := ClaimIdOf(claim);
    if id.None? {
      MorePass(verdicts, Verdict(index, name, "<schema>", Some(BadId)));
      MoreOf(verdicts, Verdict(index, name, "<schema>", Some(BadId)));
      verdicts := verdicts + [Verdict(index, name, "<schema>", Some(BadId))];
    } else if id.value in seen {
      MorePass(verdicts, Verdict(index, name, "<schema>", Some(DuplicateId(seen[id.value]))));
      MoreOf(verdicts, Verdict(index, name, "<schema>", Some(DuplicateId(seen[id.value]))));
      verdicts := verdicts + [Verdict(index, name, "<schema>", Some(DuplicateId(seen[id.value])))];
    } else {
      seen' := seen[id.value := index];
    }
    if TextAt(fields, "claim").None? {
      MorePass(verdicts, Verdict(index, name, "<schema>", Some(NoText)));
      MoreOf(verdicts, Verdict(index, name, "<schema>", Some(NoText)));
      verdicts := verdicts + [Verdict(index, name, "<schema>", Some(NoText))];
    }
    var onSource := CheckSource(env, fields, index, name);
    BothPass(verdicts, onSource);
    var onEvidence := CheckEvidence(env, fields, index, name);
    BothPass(verdicts + onSource, onEvidence);
    BothOf(verdicts, onSource, index, name);
    BothOf(verdicts + onSource, onEvidence, index, name);
    verdicts := verdicts + onSource + onEvidence;
  }

  lemma NoneOf(row: nat, id: string)
    ensures AreOf([], row, id)
  {
  }

  lemma MoreOf(verdicts: seq<Verdict>, v: Verdict)
    ensures AreOf(verdicts, v.row, v.id) ==> AreOf(verdicts + [v], v.row, v.id)
  {
  }

  lemma BothOf(a: seq<Verdict>, b: seq<Verdict>, row: nat, id: string)
    ensures AreOf(a, row, id) && AreOf(b, row, id) ==> AreOf(a + b, row, id)
  {
  }

  lemma FailsAlone(v: Verdict)
    ensures AllPass([v]) <==> v.reason.None?
  {
    assert [v][0] == v;
  }

  lemma NonePass()
    ensures AllPass([])
  {
  }

  lemma MorePass(verdicts: seq<Verdict>, v: Verdict)
    ensures AllPass(verdicts + [v]) <==> AllPass(verdicts) && v.reason.None?
  {
    if AllPass(verdicts + [v]) {
      assert (verdicts + [v])[|verdicts|] == v;
      assert forall k | 0 <= k < |verdicts| :: verdicts[k] == (verdicts + [v])[k];
    }
  }

  lemma BothPass(a: seq<Verdict>, b: seq<Verdict>)
    ensures AllPass(a + b) <==> AllPass(a) && AllPass(b)
  {
    if AllPass(a + b) {
      assert forall k | 0 <= k < |a| :: a[k] == (a + b)[k];
      assert forall k | 0 <= k < |b| :: b[k] == (a + b)[|a| + k];
    }
  }

  /** The verdicts on one more row. */
  lemma MoreRows(env: Env, claims: seq<Value>, a: seq<Verdict>, b: seq<Verdict>, row: nat)
    requires row < |claims| && claims[row].Map? && AreOf(b, row, Label(env, claims[row], row))
    requires LabelsFit(env, claims, a)
    ensures LabelsFit(env, claims, a + b)
    ensures FailingRows(a + b) == FailingRows(a) + if AllPass(b) then {} else {row}
  {
    hide Label;
    forall r | r in FailingRows(a) + (if AllPass(b) then {} else {row}) ensures r in FailingRows(a + b) {
      if r in FailingRows(a) {
        var k: nat :| k < |a| && a[k].reason.Some? && a[k].row == r;
        assert (a + b)[k] == a[k];
      } else {
        var k: nat :| k < |b| && b[k].reason.Some?;
        assert (a + b)[|a| + k] == b[k];
      }
    }
  }

  /** The ids of the claims looked at so far. */
  function IdsOf(claims: seq<Value>): set<string> {
    set k: nat | k < |claims| && ClaimIdOf(claims[k]).Some? :: ClaimIdOf(claims[k]).value
  }

  /** One more claim, right on its own and with a new id. */
  lemma OneMoreHolds(env: Env, claims: seq<Value>, claim: Value)
    ensures AllHold(env, claims + [claim])
       <==> AllHold(env, claims) && ClaimHolds(env, claim) && ClaimIdOf(claim).value !in IdsOf(claims)
    ensures IdsOf(claims + [claim])
         == IdsOf(claims) + if ClaimIdOf(claim).Some? then {ClaimIdOf(claim).value} else {}
  {
    hide ClaimHolds, ClaimIdOf;
    var more := claims + [claim];
    assert more[|claims|] == claim && forall k | 0 <= k < |claims| :: more[k] == claims[k];
    if AllHold(env, more) {
      assert ClaimHolds(env, more[|claims|]);
      HoldsHasId(env, claim);
      forall k: nat | k < |claims| && ClaimIdOf(claims[k]).Some?
        ensures ClaimIdOf(claims[k]) != ClaimIdOf(claim)
      {
        assert ClaimIdOf(more[k]) != ClaimIdOf(more[|claims|]);
      }
      assert forall k | 0 <= k < |claims| :: ClaimHolds(env, more[k]);
      assert AreDistinctIds(claims);
    }
    if AllHold(env, claims) && ClaimHolds(env, claim) {
      HoldsHasId(env, claim);
      if ClaimIdOf(claim).value !in IdsOf(claims) {
        forall i, j | 0 <= i < j < |more| && ClaimIdOf(more[i]).Some?
          ensures ClaimIdOf(more[i]) != ClaimIdOf(more[j])
        {
          if j == |claims| {
            assert ClaimIdOf(claims[i]).value in IdsOf(claims);
          }
        }
      }
    }
    forall id | id in IdsOf(claims) ensures id in IdsOf(more) {
      var k: nat :| k < |claims| && ClaimIdOf(claims[k]).Some? && ClaimIdOf(claims[k]).value == id;
      assert more[k] == claims[k];
    }
  }

  lemma HoldsHasId(env: Env, claim: Value)
    ensures ClaimHolds(env, claim) ==> ClaimIdOf(claim).Some?
  {
  }

  function ClaimsOf(doc: Value): seq<Value> {
    if !doc.Map? then []
    else match Get(doc.entries, "claims") case Some(List(items)) => items case _ => []
  }

  /** The mapping rows among the first n that do not hold or repeat an earlier id. */
  function RowsAtFault(env: Env, claims: seq<Value>, n: nat): set<nat>
    requires n <= |claims|
  {
    set k: nat | k < n && IsAtFault(env, claims, k)
  }

  predicate IsAtFault(env: Env, claims: seq<Value>, k: nat)
    requires k < |claims|
  {
    claims[k].Map? && (!ClaimHolds(env, claims[k]) || ClaimIdOf(claims[k]).value in IdsOf(claims[..k]))
  }

  /** The report on a parsed document, or why the gate cannot run. */
  method VerifyMatrix(env: Env, doc: Value) returns (r: Result<Report, Unusable>)
    ensures r.Ok? <==> IsUsable(doc)
    ensures r.Ok? ==>
      (AllPass(r.value.verdicts) && r.value.failures == [] && r.value.claims > 0 <==> IsVerified(env, doc))
    ensures r.Ok? ==>
      && LabelsFit(env, ClaimsOf(doc), r.value.verdicts) && r.value.claims == |ClaimsOf(doc)|
      && FailingRows(r.value.verdicts) == RowsAtFault(env, ClaimsOf(doc), |ClaimsOf(doc)|)
  {
    hide LabelsFit, FailingRows, RowsAtFault, AllHold, KeysWithin;
    NoRows(env);
    if !doc.Map? {
      return Err(RootNotAMapping);
    }
    var fields := doc.entries;
    var version := Get(fields, "schema_version");
    if version != Some(Int(1)) {
      return Err(BadSchemaVersion);
    }
    var verdicts: seq<Verdict>, failures: seq<GlobalFailure> := [], [];
    if !KeysWithin(fields, TOP_LEVEL_KEYS) {
      failures := failures + [UnknownTopLevel];
    }
    var repo := Get(fields, "repo");
    if repo.Some? && repo.value != Null && TextAt(fields, "repo").None? {
      failures := failures + [BadRepo];
    }
    ghost var topPasses := failures == [];
    assert topPasses <==> KeysWithin(fields, TOP_LEVEL_KEYS) && RepoIsNamed(fields);
    var listed := Get(fields, "claims");
    if listed.None? || !listed.value.List? {
      return Ok(Report(verdicts, failures + [ClaimsNotAList], 0));
    }
    var claims := listed.value.items;
    if claims == [] {
      return Ok(Report(verdicts, failures + [NoClaims], 0));
    }
    var onClaims, notMappings := VerifyClaims(env, claims);
    return Ok(Report(onClaims, failures + notMappings, |claims|));
  }

  /** The verdicts on every row in turn, each id remembered for the rows after it. */
  method VerifyClaims(env: Env, claims: seq<Value>) returns (verdicts: seq<Verdict>, failures: seq<GlobalFailure>)
    ensures AllPass(verdicts) && failures == [] <==> AllHold(env, claims)
    ensures LabelsFit(env, claims, verdicts) && FailingRows(verdicts) == RowsAtFault(env, claims, |claims|)
  {
    hide Label, ClaimHolds, ClaimIdOf;
    verdicts, failures := [], [];
    var seen: map<string, nat> := map[];
    for k := 0 to |claims|
      invariant seen.Keys == IdsOf(claims[..k])
      invariant LabelsFit(env, claims, verdicts) && FailingRows(verdicts) == RowsAtFault(env, claims, k)
      invariant AllPass(verdicts) && failures == [] <==> AllHold(env, claims[..k])
    {
      OneMoreHolds(env, claims[..k], claims[k]);
      assert claims[..k + 1] == claims[..k] + [claims[k]];
      if !claims[k].Map? {
        NotAMappingFails(env, claims[k]);
        failures := failures + [ClaimNotAMapping(k)];
        continue;
      }
      var more, seen' := VerifyClaim(env, claims[k], k, seen);
      BothPass(verdicts, more);
      MoreRows(env, claims, verdicts, more, k);
      verdicts, seen := verdicts + more, seen';
    }
    assert claims[..|claims|] == claims;
  }

  lemma NoRows(env: Env)
    ensures LabelsFit(env, [], []) && FailingRows([]) == RowsAtFault(env, [], 0)
  {
  }

  lemma NotAMappingFails(env: Env, claim: Value)
    requires !claim.Map?
    ensures !ClaimHolds(env, claim) && ClaimIdOf(claim).None?
  {
  }

  /** The exit code of a report, counting the claims that failed. */
  method PrintReport(report: Report) returns (code: int, failed: set<string>)
    ensures code
         == if AllPass(report.verdicts) && report.failures == [] && report.claims > 0 then EXIT_OK else EXIT_FAILED
    ensures failed == FailingIds(report.verdicts)
  {
    failed := {};
    var anyFailed := report.failures != [];
    for i := 0 to |report.verdicts|
      invariant failed == set k: nat | k < i && report.verdicts[k].reason.Some? :: report.verdicts[k].id
      invariant !anyFailed <==> AllPass(report.verdicts[..i]) && report.failures == []
    {
      var v := report.verdicts[i];
      MorePass(report.verdicts[..i], v);
      assert report.verdicts[..i + 1] == report.verdicts[..i] + [v];
      if v.reason.Some? {
        failed := failed + {v.id};
        anyFailed := true;
      }
    }
    assert report.verdicts[..|report.verdicts|] == report.verdicts;
    assert failed != {} ==> !AllPass(report.verdicts) by {
      if failed != {} {
        var c :| c in failed;
      }
    }
    code := if !anyFailed && report.claims > 0 && failed == {} then EXIT_OK else EXIT_FAILED;
  }

  /* ---------- how many claims failed ---------- */

  function Image(rows: set<nat>, f: nat -> string): set<string> {
    set r | r in rows :: f(r)
  }

  /** An image is as large as its rows exactly when no two of them meet. */
  lemma {:induction false} ImageSize(rows: set<nat>, f: nat -> string)
    ensures |Image(rows, f)| <= |rows|
    ensures |Image(rows, f)| == |rows| <==> forall r, q | r in rows && q in rows && f(r) == f(q) :: r == q
    decreases |rows|
  {
    if rows != {} {
      var x :| x in rows;
      var rest := rows - {x};
      ImageSize(rest, f);
      assert rows == rest + {x};
      assert Image(rows, f) == Image(rest, f) + {f(x)};
      if f(x) in Image(rest, f) {
        assert Image(rows, f) == Image(rest, f);
        var q :| q in rest && f(q) == f(x);
        assert q in rows && q != x;
      } else {
        forall q | q in rest ensures f(q) != f(x) {
          assert f(q) in Image(rest, f);
        }
      }
    }
  }

  /**
   The report counts ids. The number it prints is the number of failing rows exactly when no two
   failing rows go by one text; a row that repeats the id of a failing row is not counted.
   */
  lemma FailedCountIff(env: Env, claims: seq<Value>, verdicts: seq<Verdict>)
    requires LabelsFit(env, claims, verdicts)
    ensures |FailingIds(verdicts)| <= |FailingRows(verdicts)|
    ensures |FailingIds(verdicts)| == |FailingRows(verdicts)|
       <==> forall r, q | r in FailingRows(verdicts) && q in FailingRows(verdicts)
                          && LabelAt(env, claims, r) == LabelAt(env, claims, q) :: r == q
  {
    hide Label;
    var rows := FailingRows(verdicts);
    var f := (r: nat) => LabelAt(env, claims, r);
    ImageSize(rows, f);
    forall id | id in FailingIds(verdicts) ensures id in Image(rows, f) {
      var k: nat :| k < |verdicts| && verdicts[k].reason.Some? && verdicts[k].id == id;
      assert verdicts[k].row in rows && f(verdicts[k].row) == id;
    }
    forall id | id in Image(rows, f) ensures id in FailingIds(verdicts) {
      var r :| r in rows && f(r) == id;
      var k: nat :| k < |verdicts| && verdicts[k].reason.Some? && verdicts[k].row == r;
      assert verdicts[k].id == id;
    }
    assert FailingIds(verdicts) == Image(rows, f);
  }

  function LabelAt(env: Env, claims: seq<Value>, r: nat): string {
    if r < |claims| && claims[r].Map? then Label(env, claims[r], r) else ""
  }

  /** Two rows of one id and nothing else: both are at fault, whatever the report, and it counts one. */
  lemma TwoRowsCountOnce(env: Env, verdicts: seq<Verdict>)
    requires var row := Map([Entry("id", Str("a-1"))]);
      LabelsFit(env, [row, row], verdicts) && FailingRows(verdicts) == RowsAtFault(env, [row, row], 2)
    ensures |FailingRows(verdicts)| == 2 && FailingIds(verdicts) == {"a-1"}
  {
    hide ClaimHolds, IdsOf, Label;
    var row := Map([Entry("id", Str("a-1"))]);
    NamelessRow(env, row);
    assert RowsAtFault(env, [row, row], 2) == {0, 1};
    assert 0 in FailingRows(verdicts);
    var k: nat :| k < |verdicts| && verdicts[k].reason.Some? && verdicts[k].row == 0;
    assert verdicts[k].id in FailingIds(verdicts);
  }

  /** A row without a text does not hold, and goes by its id. */
  lemma NamelessRow(env: Env, row: Value)
    requires row == Map([Entry("id", Str("a-1"))])
    ensures !ClaimHolds(env, row) && forall k :: Label(env, row, k) == "a-1"
  {
    hide IsClaimId, SourceHolds, EvidenceListHolds;
    assert Get(row.entries, "claim").None? && Get(row.entries, "id") == Some(Str("a-1"));
  }

  /**
   The gate on the text of a matrix file (None: there is no readable file), parsed by the built-in
   parser: 0 exactly for a verified matrix, 2 exactly when it cannot judge.
   */
  method Verify(flow: FlowParser, env: Env, text: Option<string>) returns (code: int)
    ensures code in {EXIT_OK, EXIT_FAILED, EXIT_UNUSABLE}
    ensures
      var doc := if text.None? then Err(NoContent) else match ParseYamlSubset(flow, text.value) {
        case Ok(v) => Ok(v)
        case Err(e) => Err(NoContent)
      };
      && (code == EXIT_UNUSABLE <==> doc.Err? || !IsUsable(doc.value))
      && (code == EXIT_OK <==> doc.Ok? && IsVerified(env, doc.value))
  {
    if text.None? {
      return EXIT_UNUSABLE;
    }
    var doc := ReadYamlSubset(flow, text.value);
    if doc.Err? {
      return EXIT_UNUSABLE;
    }
    var report := VerifyMatrix(env, doc.value);
    if report.Err? {
      return EXIT_UNUSABLE;
    }
    var exit, failed := PrintReport(report.value);
    return exit;
  }

  datatype Missing = NoContent
}
