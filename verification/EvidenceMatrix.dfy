/**
 The evidence-matrix checks: what one claim row and one piece of evidence must satisfy, and what
 it means for a whole matrix to be verified.
 */
module EvidenceMatrix {
  import opened Outcomes
  import opened PyText
  import opened YamlParser

  /** What the checks ask of the repository and of the interpreter. */
  datatype Env = Env(
    files: set<string>,
    text: string -> string,
    show: Value -> string,                    // str() of a value that is not a text
    runs: (string, Value) -> bool,            // the script exits 0 within the timeout
    manifest: string -> Option<Value>,        // None: unsupported format or parse error
    sha256: string -> string,
    floatIsPositive: string -> bool,
    floatsEqual: (string, string) -> bool,
    intEqualsFloat: (int, string) -> bool)

  /* ---------- texts ---------- */

  /** Where partition() cuts: the first occurrence of a non-empty text, or |s|. */
  function Cut(s: string, sought: string): (n: nat)
    requires sought != ""
    ensures n <= |s|
    ensures n < |s| ==> At(s, n, sought)
  {
    if Find(s, sought, 0).Some? then Find(s, sought, 0).value else |s|
  }

  predicate Contains(s: string, sought: string)
    requires sought != ""
  {
    Cut(s, sought) < |s|
  }

  /** Whether the text occurs anywhere, and where it occurs first. */
  lemma CutIsFirst(s: string, sought: string)
    requires sought != ""
    ensures forall k: nat | At(s, k, sought) :: Cut(s, sought) <= k
    ensures Contains(s, sought) <==> exists k: nat :: At(s, k, sought)
  {
    if k: nat :| At(s, k, sought) {
      assert !Find(s, sought, 0).None?;
    }
  }

  /** s.split(sep)[-1] */
  function LastPart(s: string, sep: string): string
    requires sep != ""
    decreases |s|
  {
    if Contains(s, sep) then LastPart(s[Cut(s, sep) + |sep|..], sep) else s
  }

  /** The file name of a path. */
  function FileName(path: string): string {
    LastPart(path, "/")
  }

  predicate IsBlankText(s: string) {
    Strip(s) == ""
  }

  /* ---------- dictionaries ---------- */

  function Get(entries: seq<Entry>, key: string): Option<Value> {
    if entries == [] then None
    else if entries[0].key == key then Some(entries[0].value)
    else Get(entries[1..], key)
  }

  predicate KeysWithin(entries: seq<Entry>, allowed: set<string>) {
    forall k | 0 <= k < |entries| :: entries[k].key in allowed
  }

  /** The non-blank text under a key, if there is one. */
  function TextAt(entries: seq<Entry>, key: string): Option<string> {
    match Get(entries, key)
    case Some(Str(s)) => if IsBlankText(s) then None else Some(s)
    case _ => None
  }

  /* ---------- equality of pinned and found values ---------- */

  predicate ValuesEqual(env: Env, pinned: Value, actual: Value)
    decreases pinned
  {
    match (pinned, actual)
    case (Bool(a), Bool(b)) => a == b
    case (Map(p), Map(a)) =>
      && Keys(p) == Keys(a)
      && forall i: nat | i < |p| :: Get(a, p[i].key).Some? && ValuesEqual(env, p[i].value, Get(a, p[i].key).value)
    case (List(p), List(a)) => |p| == |a| && forall i: nat | i < |p| :: ValuesEqual(env, p[i], a[i])
    case (Int(a), Int(b)) => a == b
    case (Float(a), Float(b)) => env.floatsEqual(a, b)
    case (Int(a), Float(b)) => env.intEqualsFloat(a, b)
    case (Float(a), Int(b)) => env.intEqualsFloat(b, a)
    case (Str(a), Str(b)) => a == b
    case (Null, Null) => true
    case _ => false
  }

  function Keys(entries: seq<Entry>): set<string> {
    set k: nat | k < |entries| :: entries[k].key
  }

  /* ---------- evidence ---------- */

  const RUNNERS: map<string, string> :=
    map["cargo-test" := "Cargo.toml", "npm-test" := "package.json", "go-test" := "go.mod"]
  const DEFAULT_TIMEOUT := Int(120)

  predicate HasFileNamed(env: Env, name: string) {
    exists f :: f in env.files && FileName(f) == name
  }

  predicate TestHolds(env: Env, ref: string) {
    if Contains(ref, "::") then
      var file, nodes := ref[..Cut(ref, "::")], ref[Cut(ref, "::") + 2..];
      var node := Strip(LastPart(nodes, "::"));
      && !IsBlankText(file) && !IsBlankText(nodes) && file in env.files
      && (node != "" ==> Contains(env.text(file), "def " + node))
    else if Contains(ref, ":") then
      var runner, target := ref[..Cut(ref, ":")], ref[Cut(ref, ":") + 1..];
      runner in RUNNERS && !IsBlankText(target) && HasFileNamed(env, RUNNERS[runner])
    else ref in env.files
  }

  predicate IsTimeout(env: Env, v: Value) {
    (v.Int? && v.n > 0) || (v.Float? && env.floatIsPositive(v.text))
  }

  predicate ScriptHolds(env: Env, entry: seq<Entry>, ref: string) {
    var timeout := Get(entry, "timeout_seconds").UnwrapOr(DEFAULT_TIMEOUT);
    IsTimeout(env, timeout) && ref in env.files && env.runs(ref, timeout)
  }

  /** The value under a dotted path; None where a segment is missing. */
  function WalkDotted(v: Value, path: string): Option<Value>
    decreases |path|
  {
    var dot := Cut(path, ".");
    var next := Child(v, path[..dot]);
    if dot == |path| || next.None? then next else WalkDotted(next.value, path[dot + 1..])
  }

  function Child(v: Value, segment: string): Option<Value> {
    match v
    case Map(entries) => Get(entries, segment)
    case List(items) =>
      if segment != "" && AllDigits(segment) && NatValue(segment) < |items| then Some(items[NatValue(segment)])
      else None
    case _ => None
  }

  predicate ManifestHolds(env: Env, entry: seq<Entry>, ref: string) {
    && Contains(ref, ":")
    && var file, dotted := ref[..Cut(ref, ":")], ref[Cut(ref, ":") + 1..];
       && !IsBlankText(file) && !IsBlankText(dotted) && file in env.files && env.manifest(file).Some?
       && WalkDotted(env.manifest(file).value, dotted).Some?
       && Get(entry, "equals").Some?
       && ValuesEqual(env, Get(entry, "equals").value, WalkDotted(env.manifest(file).value, dotted).value)
  }

  predicate IsPin(pin: string) {
    |pin| == 64 && forall k | 0 <= k < |pin| :: IsDigit(pin[k]) || 'a' <= pin[k] <= 'f'
  }

  predicate ArtifactHolds(env: Env, entry: seq<Entry>, ref: string) {
    && Get(entry, "sha256").Some? && Get(entry, "sha256").value.Str?
    && var pin := LowerAscii(Strip(Get(entry, "sha256").value.s));
       IsPin(pin) && ref in env.files && env.sha256(ref) == pin
  }

  const EVIDENCE_KEYS: map<string, set<string>> := map[
    "test" := {"type", "ref"},
    "script" := {"type", "ref", "timeout_seconds"},
    "manifest_field" := {"type", "ref", "equals"},
    "artifact_hash" := {"type", "ref", "sha256"}]

  /** One piece of evidence passes the check of its type. */
  predicate EvidenceHolds(env: Env, entry: Value) {
    && entry.Map?
    && var kind := Get(entry.entries, "type");
       && kind.Some? && kind.value.Str? && kind.value.s in EVIDENCE_KEYS
       && KeysWithin(entry.entries, EVIDENCE_KEYS[kind.value.s])
       && TextAt(entry.entries, "ref").Some?
       && var ref := Strip(TextAt(entry.entries, "ref").value);
          match kind.value.s
          case "test" => TestHolds(env, ref)
          case "script" => ScriptHolds(env, entry.entries, ref)
          case "manifest_field" => ManifestHolds(env, entry.entries, ref)
          case _ => ArtifactHolds(env, entry.entries, ref)
  }

  /* ---------- claims and the matrix ---------- */

  predicate IsClaimId(id: string) {
    |id| > 1 && id[0] == 'C' && AllDigits(id[1..])
  }

  /** The id of a claim row, when it is a C-prefixed one. */
  function ClaimIdOf(claim: Value): Option<string> {
    if !claim.Map? then None
    else
      match Get(claim.entries, "id")
      case Some(Str(s)) => if IsClaimId(s) then Some(s) else None
      case _ => None
  }

  /** The text a row goes by in the report: its id, whatever it is, or its place. */
  function Label(env: Env, claim: Value, index: nat): string
    requires claim.Map?
  {
    match Get(claim.entries, "id")
    case None => "<claim " + IntText(index) + ">"
    case Some(Str(s)) => s
    case Some(v) => env.show(v)
  }

  /** The file a source locator names, its fragment dropped. */
  function SourceFile(locator: string): string {
    var s := Strip(locator);
    Strip(s[..Cut(s, "#")])
  }

  const CLAIM_KEYS: set<string> := {"id", "claim", "source", "evidence"}
  const TOP_LEVEL_KEYS: set<string> := {"schema_version", "repo", "claims"}

  predicate SourceHolds(env: Env, fields: seq<Entry>) {
    TextAt(fields, "source").Some? && SourceFile(TextAt(fields, "source").value) in env.files - {""}
  }

  predicate EvidenceListHolds(env: Env, fields: seq<Entry>) {
    var evidence := Get(fields, "evidence");
    && evidence.Some? && evidence.value.List? && evidence.value.items != []
    && forall k | 0 <= k < |evidence.value.items| :: EvidenceHolds(env, evidence.value.items[k])
  }

  /** A claim row that is right on its own. */
  predicate ClaimHolds(env: Env, claim: Value) {
    && claim.Map?
    && KeysWithin(claim.entries, CLAIM_KEYS)
    && ClaimIdOf(claim).Some?
    && TextAt(claim.entries, "claim").Some?
    && SourceHolds(env, claim.entries)
    && EvidenceListHolds(env, claim.entries)
  }

  predicate AreDistinctIds(claims: seq<Value>) {
    forall i, j | 0 <= i < j < |claims| && ClaimIdOf(claims[i]).Some? :: ClaimIdOf(claims[i]) != ClaimIdOf(claims[j])
  }

  predicate AllHold(env: Env, claims: seq<Value>) {
    (forall k | 0 <= k < |claims| :: ClaimHolds(env, claims[k])) && AreDistinctIds(claims)
  }

  /** The document is one this verifier can judge. */
  predicate IsUsable(doc: Value) {
    doc.Map? && Get(doc.entries, "schema_version") == Some(Int(1))
  }

  predicate RepoIsNamed(entries: seq<Entry>) {
    var repo := Get(entries, "repo");
    repo.None? || repo.value.Null? || TextAt(entries, "repo").Some?
  }

  /** Every claim of the matrix is verified, and there is one. */
  predicate IsVerified(env: Env, doc: Value) {
    && IsUsable(doc)
    && KeysWithin(doc.entries, TOP_LEVEL_KEYS)
    && RepoIsNamed(doc.entries)
    && var claims := Get(doc.entries, "claims");
       claims.Some? && claims.value.List? && claims.value.items != [] && AllHold(env, claims.value.items)
  }

  /* ---------- what the equality means ---------- */

  /** The value of a float that is a number. */
  datatype Extended = Finite(x: real) | PlusInfinity | MinusInfinity

  /** What float texts stand for; None for not-a-number. */
  type Reading = string -> Option<Extended>

  /** Floats compare as what they stand for, with ints too; not-a-number equals nothing. */
  ghost predicate ComparesNumbers(env: Env, read: Reading) {
    && (forall a, b :: env.floatsEqual(a, b) <==> read(a).Some? && read(a) == read(b))
    && (forall n, b :: env.intEqualsFloat(n, b) <==> read(b) == Some(Finite(n as real)))
  }

  /** A value up to the order of its dictionaries and the way its numbers are written. */
  datatype Shape =
    | Leaf(value: Value) | Number(x: Extended) | ListOf(items: seq<Shape>) | DictOf(fields: map<string, Shape>)

  ghost function ShapeOf(read: Reading, v: Value): Shape
    decreases v
  {
    match v
    case Int(n) => Number(Finite(n as real))
    case Float(t) => if read(t).Some? then Number(read(t).value) else Leaf(v)
    case List(items) => ListOf(seq(|items|, i requires 0 <= i < |items| => ShapeOf(read, items[i])))
    case Map(entries) => DictOf(ShapeOfEntries(read, entries))
    case _ => Leaf(v)
  }

  ghost function ShapeOfEntries(read: Reading, entries: seq<Entry>): map<string, Shape>
    decreases entries
  {
    if entries == [] then map[]
    else
      var last := entries[|entries| - 1];
      ShapeOfEntries(read, entries[..|entries| - 1])[last.key := ShapeOf(read, last.value)]
  }

  /** Dictionaries with distinct keys throughout. */
  predicate IsPlain(v: Value)
    decreases v
  {
    match v
    case List(items) => forall i | 0 <= i < |items| :: IsPlain(items[i])
    case Map(entries) => DistinctKeys(entries) && forall i | 0 <= i < |entries| :: IsPlain(entries[i].value)
    case _ => true
  }

  /** Every float in it is a number. */
  predicate HasNumbers(read: Reading, v: Value)
    decreases v
  {
    match v
    case Float(t) => read(t).Some?
    case List(items) => forall i | 0 <= i < |items| :: HasNumbers(read, items[i])
    case Map(entries) => forall i | 0 <= i < |entries| :: HasNumbers(read, entries[i].value)
    case _ => true
  }

  lemma {:induction false} GetAt(entries: seq<Entry>, i: nat)
    requires i < |entries| && DistinctKeys(entries)
    ensures Get(entries, entries[i].key) == Some(entries[i].value)
  {
    if i > 0 {
      assert DistinctKeys(entries[1..]);
      GetAt(entries[1..], i - 1);
    }
  }

  lemma {:induction false} ShapeAt(read: Reading, entries: seq<Entry>)
    requires DistinctKeys(entries)
    ensures ShapeOfEntries(read, entries).Keys == Keys(entries)
    ensures forall i: nat | i < |entries| ::
              ShapeOfEntries(read, entries)[entries[i].key] == ShapeOf(read, entries[i].value)
    decreases |entries|
  {
    hide ShapeOf;
    if entries != [] {
      var front := entries[..|entries| - 1];
      assert DistinctKeys(front);
      ShapeAt(read, front);
      assert forall i: nat | i < |front| :: entries[i] == front[i];
      assert forall i: nat | i < |front| :: front[i].key in Keys(front);
    }
  }

  /**
   Values are equal exactly when no not-a-number is among them and they have the same shape:
   numbers by what they stand for, dictionaries in any order, and a bool never equals a number.
   */
  lemma {:induction false} EqualIffSameShape(env: Env, read: Reading, p: Value, a: Value)
    requires ComparesNumbers(env, read)
    requires IsPlain(p) && IsPlain(a)
    ensures ValuesEqual(env, p, a) <==> HasNumbers(read, p) && ShapeOf(read, p) == ShapeOf(read, a)
    decreases p
  {
    match (p, a) {
      case (List(ps), List(as_)) =>
        forall i: nat | i < |ps| && i < |as_| ensures EqualAsShapes(env, read, ps[i], as_[i]) {
          EqualIffSameShape(env, read, ps[i], as_[i]);
        }
        ListShapes(env, read, ps, as_);
      case (Map(ps), Map(as_)) =>
        forall i: nat, j: nat | i < |ps| && j < |as_|
          ensures EqualAsShapes(env, read, ps[i].value, as_[j].value)
        {
          EqualIffSameShape(env, read, ps[i].value, as_[j].value);
        }
        DictShapes(env, read, ps, as_);
      case _ =>
    }
  }

  /** The two values are equal exactly when they have one shape, numbers throughout. */
  ghost predicate EqualAsShapes(env: Env, read: Reading, p: Value, a: Value) {
    ValuesEqual(env, p, a) <==> HasNumbers(read, p) && ShapeOf(read, p) == ShapeOf(read, a)
  }

  lemma ListShapes(env: Env, read: Reading, p: seq<Value>, a: seq<Value>)
    requires forall i: nat | i < |p| && i < |a| :: EqualAsShapes(env, read, p[i], a[i])
    ensures EqualAsShapes(env, read, List(p), List(a))
  {
    var ps, as_ := ShapeOf(read, List(p)).items, ShapeOf(read, List(a)).items;
    if ps == as_ {
      assert forall i: nat | i < |p| :: ShapeOf(read, p[i]) == ps[i] == as_[i] == ShapeOf(read, a[i]);
    }
    if ValuesEqual(env, List(p), List(a)) {
      assert ps == as_;
    }
  }

  lemma DictShapes(env: Env, read: Reading, p: seq<Entry>, a: seq<Entry>)
    requires DistinctKeys(p) && DistinctKeys(a)
    requires forall i: nat, j: nat | i < |p| && j < |a| ::
      EqualAsShapes(env, read, p[i].value, a[j].value)
    ensures EqualAsShapes(env, read, Map(p), Map(a))
  {
    hide ShapeOfEntries, ValuesEqual;
    ShapeAt(read, p);
    ShapeAt(read, a);
    EqualDicts(env, p, a);
    if Keys(p) == Keys(a) {
      forall i: nat | i < |p|
        ensures Get(a, p[i].key).Some?
        ensures ValuesEqual(env, p[i].value, Get(a, p[i].key).value)
           <==> HasNumbers(read, p[i].value) && ShapeOfEntries(read, p)[p[i].key] == ShapeOfEntries(read, a)[p[i].key]
      {
        assert p[i].key in Keys(a);
        var j: nat :| j < |a| && a[j].key == p[i].key;
        GetAt(a, j);
      }
      SameFields(p, ShapeOfEntries(read, p), ShapeOfEntries(read, a));
    }
  }

  /** The dictionary case of the comparison. */
  lemma EqualDicts(env: Env, p: seq<Entry>, a: seq<Entry>)
    ensures ValuesEqual(env, Map(p), Map(a))
       <==> && Keys(p) == Keys(a)
            && forall i: nat | i < |p| :: Get(a, p[i].key).Some? && ValuesEqual(env, p[i].value, Get(a, p[i].key).value)
  {
  }

  lemma SameFields(p: seq<Entry>, m: map<string, Shape>, n: map<string, Shape>)
    requires m.Keys == n.Keys == Keys(p)
    ensures m == n <==> forall i: nat | i < |p| :: m[p[i].key] == n[p[i].key]
  {
    if forall i: nat | i < |p| :: m[p[i].key] == n[p[i].key] {
      forall k | k in m ensures m[k] == n[k] {
        assert k in Keys(p);
      }
    }
  }
}
