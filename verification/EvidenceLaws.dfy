/**
 What a verified matrix means, check by check: for each type of evidence the condition under which
 an entry passes, for a claim row what it must carry, and for the matrix as a whole.
 */
module EvidenceLaws {
  import opened Outcomes
  import opened PyText
  import opened YamlScan
  import opened YamlParser
  import opened EvidenceMatrix
  import opened TestRefs

  /* ---------- cutting at one character ---------- */

  /** n is where the text is cut at its first c, or its length. */
  predicate IsFirst(s: string, c: char, n: nat) {
    n <= |s| && (forall k | 0 <= k < n :: s[k] != c) && (n < |s| ==> s[n] == c)
  }

  lemma CutIsAt(s: string, c: char)
    ensures IsFirst(s, c, Cut(s, [c])) && (Contains(s, [c]) <==> c in s)
    ensures forall n: nat | IsFirst(s, c, n) :: n == Cut(s, [c])
  {
    hide Cut, Find;
    CutIsFirst(s, [c]);
    forall k | 0 <= k < |s| ensures At(s, k, [c]) <==> s[k] == c {
      assert s[k..k + 1] == [s[k]];
    }
    var cut := Cut(s, [c]);
    assert cut < |s| ==> At(s, cut, [c]);
    if c in s {
      var k :| 0 <= k < |s| && s[k] == c;
      assert At(s, k, [c]);
    }
  }

  /** What stands before a cut, and after it. */
  lemma CutParts(s: string, c: char, before: string, after: string)
    requires s == before + [c] + after && c !in before
    ensures Contains(s, [c]) && Cut(s, [c]) == |before|
    ensures s[..|before|] == before && s[|before| + 1..] == after
  {
    hide Cut;
    CutIsAt(s, c);
    assert s[|before|] == c;
    assert forall k | 0 <= k < |before| :: s[k] == before[k];
    assert IsFirst(s, c, |before|);
  }

  /* ---------- dictionaries ---------- */

  /** The dictionary has this value under the key. */
  predicate Has(entries: seq<Entry>, key: string, value: Value) {
    exists i | 0 <= i < |entries| ::
      entries[i] == Entry(key, value) && forall j | 0 <= j < i :: entries[j].key != key
  }

  predicate Lacks(entries: seq<Entry>, key: string) {
    forall i | 0 <= i < |entries| :: entries[i].key != key
  }

  lemma {:induction false} GetIff(entries: seq<Entry>, key: string)
    ensures Get(entries, key).None? <==> Lacks(entries, key)
    ensures forall value :: Get(entries, key) == Some(value) <==> Has(entries, key, value)
    decreases |entries|
  {
    if entries != [] {
      var rest := entries[1..];
      GetIff(rest, key);
      GetNext(entries, key);
      assert forall j | 1 <= j < |entries| :: entries[j] == rest[j - 1];
      forall value ensures Get(entries, key) == Some(value) <==> Has(entries, key, value) {
        hide Has, Get;
        HasNext(entries, key, value);
      }
    }
  }

  lemma GetNext(entries: seq<Entry>, key: string)
    requires entries != []
    ensures Get(entries, key) == if entries[0].key == key then Some(entries[0].value) else Get(entries[1..], key)
  {
  }

  lemma HasNext(entries: seq<Entry>, key: string, value: Value)
    requires entries != []
    ensures entries[0].key == key ==> (Has(entries, key, value) <==> entries[0].value == value)
    ensures entries[0].key != key ==> (Has(entries, key, value) <==> Has(entries[1..], key, value))
  {
    var rest := entries[1..];
    assert forall j | 0 <= j < |rest| :: rest[j] == entries[j + 1];
    if entries[0].key != key && Has(rest, key, value) {
      var i :| 0 <= i < |rest| && rest[i] == Entry(key, value) && forall j | 0 <= j < i :: rest[j].key != key;
      assert entries[i + 1] == rest[i] && forall j | 1 <= j < i + 1 :: entries[j] == rest[j - 1];
    }
    if entries[0].key != key && Has(entries, key, value) {
      var i :| 0 <= i < |entries| && entries[i] == Entry(key, value) && forall j | 0 <= j < i :: entries[j].key != key;
      assert rest[i - 1] == entries[i];
    }
  }

  /** A text that is not blank stands under the key. */
  predicate HasText(entries: seq<Entry>, key: string, text: string) {
    Has(entries, key, Str(text)) && !AllSpace(text)
  }

  lemma TextAtIff(entries: seq<Entry>, key: string)
    ensures forall text :: TextAt(entries, key) == Some(text) <==> HasText(entries, key, text)
  {
    hide Has, Strip, AllSpace;
    GetIff(entries, key);
    forall text: string ensures IsBlankText(text) <==> AllSpace(text) {
      var _, _ := StripParts(text);
    }
  }

  /** Only these keys. */
  predicate OnlyKeys(entries: seq<Entry>, keys: set<string>) {
    forall i | 0 <= i < |entries| :: entries[i].key in keys
  }

  /* ---------- script ---------- */

  /** The timeout of a script entry: what it says, two minutes if it says nothing. */
  predicate HasTimeout(entries: seq<Entry>, timeout: Value) {
    Has(entries, "timeout_seconds", timeout) || (Lacks(entries, "timeout_seconds") && timeout == Int(120))
  }

  /** A script passes when it is in the tree and ends well within its timeout, a positive number. */
  ghost predicate ScriptPasses(env: Env, entries: seq<Entry>, ref: string) {
    exists timeout ::
      && HasTimeout(entries, timeout)
      && ((timeout.Int? && timeout.n > 0) || (timeout.Float? && env.floatIsPositive(timeout.text)))
      && ref in env.files && env.runs(ref, timeout)
  }

  lemma ScriptIff(env: Env, entries: seq<Entry>, ref: string)
    ensures ScriptHolds(env, entries, ref) <==> ScriptPasses(env, entries, ref)
  {
    hide Has, Lacks;
    GetIff(entries, "timeout_seconds");
    var found := Get(entries, "timeout_seconds");
    assert found.Some? ==> Has(entries, "timeout_seconds", found.value);
    assert HasTimeout(entries, found.UnwrapOr(Int(120)));
    assert forall timeout | HasTimeout(entries, timeout) :: timeout == found.UnwrapOr(Int(120));
  }

  /* ---------- manifest_field ---------- */

  /** One step of a dotted path: a key of a dict, or a decimal index of a list. */
  predicate IsChild(v: Value, segment: string, child: Value) {
    || (v.Map? && Has(v.entries, segment, child))
    || (v.List? && segment != "" && AllDigits(segment)
        && exists n: nat :: n < |v.items| && n == NatValue(segment) && v.items[n] == child)
  }

  /** The segments lead from one value to the other. */
  ghost predicate Leads(v: Value, segments: seq<string>, found: Value)
    decreases |segments|
  {
    if segments == [] then v == found
    else exists child :: IsChild(v, segments[0], child) && Leads(child, segments[1..], found)
  }

  predicate IsPathOf(segments: seq<string>, dotted: string) {
    && segments != [] && Join(".", segments) == dotted
    && forall k | 0 <= k < |segments| :: '.' !in segments[k]
  }

  lemma ChildIff(v: Value, segment: string)
    ensures forall child :: Child(v, segment) == Some(child) <==> IsChild(v, segment, child)
  {
    hide Has;
    if v.Map? {
      GetIff(v.entries, segment);
    }
  }

  /** The first segment of a path, and what is left of it. */
  lemma PathCut(segments: seq<string>, dotted: string)
    requires IsPathOf(segments, dotted)
    ensures segments != []
    ensures var dot := Cut(dotted, ".");
      && segments[0] == dotted[..dot]
      && (|segments| == 1 <==> dot == |dotted|)
      && (|segments| > 1 ==> dot < |dotted| && IsPathOf(segments[1..], dotted[dot + 1..]))
  {
    hide Cut;
    if |segments| > 1 {
      CutParts(dotted, '.', segments[0], Join(".", segments[1..]));
    } else {
      CutIsAt(dotted, '.');
      assert dotted[..|dotted|] == dotted;
    }
  }

  lemma {:induction false} WalkLeads(v: Value, dotted: string, found: Value) returns (segments: seq<string>)
    requires WalkDotted(v, dotted) == Some(found)
    ensures IsPathOf(segments, dotted) && Leads(v, segments, found)
    decreases |dotted|
  {
    hide Cut, Child, IsChild;
    var dot := Cut(dotted, ".");
    CutIsAt(dotted, '.');
    assert '.' !in dotted[..dot];
    ChildIff(v, dotted[..dot]);
    var child := Child(v, dotted[..dot]).value;
    assert IsChild(v, dotted[..dot], child);
    if dot == |dotted| {
      segments := [dotted];
      assert dotted[..dot] == dotted;
      assert segments[1..] == [];
    } else {
      var rest := WalkLeads(child, dotted[dot + 1..], found);
      segments := [dotted[..dot]] + rest;
      assert segments[1..] == rest;
      assert dotted == dotted[..dot] + "." + dotted[dot + 1..];
    }
  }

  lemma {:induction false} LeadsWalks(v: Value, dotted: string, found: Value, segments: seq<string>)
    requires IsPathOf(segments, dotted) && Leads(v, segments, found)
    ensures WalkDotted(v, dotted) == Some(found)
    decreases |segments|
  {
    hide Cut, Child, IsChild, IsPathOf;
    PathCut(segments, dotted);
    ChildIff(v, segments[0]);
    var child :| IsChild(v, segments[0], child) && Leads(child, segments[1..], found);
    assert Child(v, segments[0]) == Some(child);
    if |segments| > 1 {
      LeadsWalks(child, dotted[Cut(dotted, ".") + 1..], found, segments[1..]);
    }
  }

  /** Some value stands under the dotted path. */
  ghost predicate StandsAt(v: Value, dotted: string, found: Value) {
    exists segments :: IsPathOf(segments, dotted) && Leads(v, segments, found)
  }

  lemma WalkIff(v: Value, dotted: string, found: Value)
    ensures WalkDotted(v, dotted) == Some(found) <==> StandsAt(v, dotted, found)
  {
    if WalkDotted(v, dotted) == Some(found) {
      var segments := WalkLeads(v, dotted, found);
    }
    if StandsAt(v, dotted, found) {
      var segments :| IsPathOf(segments, dotted) && Leads(v, segments, found);
      LeadsWalks(v, dotted, found, segments);
    }
  }

  /** The ref is a file and a dotted path, parted at its first colon. */
  predicate IsSplit(ref: string, file: string, rest: string) {
    ref == file + ":" + rest && ':' !in file
  }

  lemma SplitIs(ref: string)
    ensures Contains(ref, ":") <==> ':' in ref
    ensures Contains(ref, ":") ==> IsSplit(ref, ref[..Cut(ref, ":")], ref[Cut(ref, ":") + 1..])
    ensures forall file, rest | IsSplit(ref, file, rest) ::
              Contains(ref, ":") && file == ref[..Cut(ref, ":")] && rest == ref[Cut(ref, ":") + 1..]
  {
    hide Cut;
    CutIsAt(ref, ':');
    var cut := Cut(ref, ":");
    if cut < |ref| {
      assert ref == ref[..cut] + ":" + ref[cut + 1..];
    }
    forall file, rest | IsSplit(ref, file, rest)
      ensures Contains(ref, ":") && file == ref[..Cut(ref, ":")] && rest == ref[Cut(ref, ":") + 1..]
    {
      CutParts(ref, ':', file, rest);
    }
  }

  /** The pinned value and the one found: the same tree, with no not-a-number in it. */
  ghost predicate IsSameTree(read: Reading, pinned: Value, found: Value) {
    HasNumbers(read, pinned) && ShapeOf(read, pinned) == ShapeOf(read, found)
  }

  /**
   A manifest field passes when its file is in the tree and parses, a value stands under the dotted
   path, and that value is the pinned one.
   */
  ghost predicate FieldPasses(env: Env, read: Reading, entries: seq<Entry>, ref: string) {
    exists file, dotted, found, pinned ::
      && IsSplit(ref, file, dotted) && !AllSpace(file) && !AllSpace(dotted)
      && file in env.files && env.manifest(file).Some?
      && StandsAt(env.manifest(file).value, dotted, found)
      && Has(entries, "equals", pinned) && IsSameTree(read, pinned, found)
  }

  /** Manifests, like everything that is parsed, are plain. */
  ghost predicate ReadsPlain(env: Env) {
    forall file | env.manifest(file).Some? :: IsPlain(env.manifest(file).value)
  }

  lemma FieldIff(env: Env, read: Reading, entries: seq<Entry>, ref: string)
    requires ComparesNumbers(env, read) && ReadsPlain(env) && IsPlain(Map(entries))
    ensures ManifestHolds(env, entries, ref) <==> FieldPasses(env, read, entries, ref)
  {
    hide Cut, WalkDotted, StandsAt, ValuesEqual, IsSameTree, Has, Strip, AllSpace, ComparesNumbers, IsPlain;
    SplitIs(ref);
    GetIff(entries, "equals");
    forall text: string ensures IsBlankText(text) <==> AllSpace(text) {
      var _, _ := StripParts(text);
    }
    if Contains(ref, ":") && Get(entries, "equals").Some? {
      var file, dotted := ref[..Cut(ref, ":")], ref[Cut(ref, ":") + 1..];
      var pinned := Get(entries, "equals").value;
      assert Has(entries, "equals", pinned);
      PlainUnder(entries, "equals", pinned);
      if env.manifest(file).Some? {
        var data := env.manifest(file).value;
        forall found ensures WalkDotted(data, dotted) == Some(found) <==> StandsAt(data, dotted, found) {
          WalkIff(data, dotted, found);
        }
        if WalkDotted(data, dotted).Some? {
          var found := WalkDotted(data, dotted).value;
          PlainBelow(data, dotted, found);
          SameTreeIff(env, read, pinned, found);
          assert StandsAt(data, dotted, found);
          assert forall other | StandsAt(data, dotted, other) :: other == found;
          assert forall other | Has(entries, "equals", other) :: other == pinned;
        }
      }
    }
  }

  lemma SameTreeIff(env: Env, read: Reading, pinned: Value, found: Value)
    requires ComparesNumbers(env, read) && IsPlain(pinned) && IsPlain(found)
    ensures ValuesEqual(env, pinned, found) <==> IsSameTree(read, pinned, found)
  {
    EqualIffSameShape(env, read, pinned, found);
  }

  lemma PlainUnder(entries: seq<Entry>, key: string, value: Value)
    requires IsPlain(Map(entries)) && Has(entries, key, value)
    ensures IsPlain(value)
  {
    var i :| 0 <= i < |entries| && entries[i] == Entry(key, value) && forall j | 0 <= j < i :: entries[j].key != key;
    assert IsPlain(entries[i].value);
  }

  lemma {:induction false} PlainBelow(v: Value, dotted: string, found: Value)
    requires IsPlain(v) && WalkDotted(v, dotted) == Some(found)
    ensures IsPlain(found)
    decreases |dotted|
  {
    hide Cut, Has;
    var dot := Cut(dotted, ".");
    ChildIff(v, dotted[..dot]);
    var child := Child(v, dotted[..dot]).value;
    if v.Map? {
      GetIff(v.entries, dotted[..dot]);
      PlainUnder(v.entries, dotted[..dot], child);
    }
    if dot < |dotted| {
      PlainBelow(child, dotted[dot + 1..], found);
    }
  }

  /* ---------- artifact_hash ---------- */

  /** 64 hexadecimal digits in lower case. */
  predicate IsDigest(digest: string) {
    |digest| == 64 && forall k | 0 <= k < 64 :: '0' <= digest[k] <= '9' || 'a' <= digest[k] <= 'f'
  }

  /** The same letters, the second in any case. */
  predicate SameButCase(lower: string, any: string) {
    |lower| == |any| && forall k | 0 <= k < |any| ::
      if 'A' <= any[k] <= 'Z' then lower[k] as int == any[k] as int + 32 else lower[k] == any[k]
  }

  lemma {:induction false} LowerIff(s: string, t: string)
    ensures LowerAscii(s) == t <==> SameButCase(t, s)
  {
    var low := LowerAscii(s);
    if s != "" {
      LowerIff(s[1..], LowerAscii(s[1..]));
      assert low == [low[0]] + LowerAscii(s[1..]);
      assert forall k | 0 < k < |s| :: low[k] == LowerAscii(s[1..])[k - 1] && s[k] == s[1..][k - 1];
    }
    assert SameButCase(low, s);
    if SameButCase(t, s) {
      assert t == low;
    }
  }

  /** An artifact passes when it is in the tree and its digest is the pinned one, white space and case aside. */
  ghost predicate HashPasses(env: Env, entries: seq<Entry>, ref: string) {
    exists pin ::
      && Has(entries, "sha256", Str(pin)) && ref in env.files
      && IsDigest(env.sha256(ref)) && SameButCase(env.sha256(ref), Strip(pin))
  }

  lemma HashIff(env: Env, entries: seq<Entry>, ref: string)
    ensures ArtifactHolds(env, entries, ref) <==> HashPasses(env, entries, ref)
  {
    hide Has, Strip, LowerAscii, SameButCase;
    GetIff(entries, "sha256");
    var found := Get(entries, "sha256");
    if found.Some? && found.value.Str? {
      LowerIff(Strip(found.value.s), env.sha256(ref));
      assert Has(entries, "sha256", Str(found.value.s));
    }
  }

  /* ---------- test ---------- */

  /** Some file of the tree has this name, in whatever directory. */
  ghost predicate HasNamed(env: Env, name: string) {
    exists f :: f in env.files && (f == name || exists dir: string :: f == dir + "/" + name)
  }

  /** The file a runner needs. */
  predicate Needs(runner: string, name: string) {
    || (runner == "cargo-test" && name == "Cargo.toml")
    || (runner == "npm-test" && name == "package.json")
    || (runner == "go-test" && name == "go.mod")
  }

  /**
   A test passes as a pytest node id, if it has "::"; as a runner and a target, if it has another
   colon; else as a file.
   */
  ghost predicate TestPasses(env: Env, ref: string) {
    if exists k: nat :: At(ref, k, "::") then
      && Contains(ref, "::") && FileOf(ref) in env.files && !AllSpace(FileOf(ref)) && !AllSpace(RestOf(ref))
      && (NodeOf(ref) == "" || exists k: nat :: At(env.text(FileOf(ref)), k, "def " + NodeOf(ref)))
    else if ':' in ref then
      exists runner, target, name ::
        IsSplit(ref, runner, target) && !AllSpace(target) && Needs(runner, name) && HasNamed(env, name)
    else ref in env.files
  }

  lemma TestIff(env: Env, ref: string)
    ensures TestHolds(env, ref) <==> TestPasses(env, ref)
  {
    hide Cut, FileOf, RestOf, NodeOf, At, HasNamed, HasFileNamed, Strip, AllSpace;
    CutIsFirst(ref, "::");
    SplitIs(ref);
    forall text: string ensures IsBlankText(text) <==> AllSpace(text) {
      var _, _ := StripParts(text);
    }
    if Contains(ref, "::") {
      NodePassesIff(env, ref);
    } else if ':' in ref {
      var runner, target := ref[..Cut(ref, ":")], ref[Cut(ref, ":") + 1..];
      assert IsSplit(ref, runner, target);
      RunnersAre(runner);
      if runner in RUNNERS {
        NamedIff(env, RUNNERS[runner]);
      }
    }
  }

  lemma RunnersAre(runner: string)
    ensures forall name :: runner in RUNNERS && RUNNERS[runner] == name <==> Needs(runner, name)
  {
  }

  /** The last part of a text: what follows some separator, with none after it. */
  lemma {:induction false} LastPartIs(s: string, sep: string) returns (before: string)
    requires sep != ""
    ensures !Contains(LastPart(s, sep), sep)
    ensures Contains(s, sep) ==> s == before + sep + LastPart(s, sep)
    ensures !Contains(s, sep) ==> s == LastPart(s, sep)
    decreases |s|
  {
    hide Cut;
    before := "";
    if Contains(s, sep) {
      var cut := Cut(s, sep);
      var rest := s[cut + |sep|..];
      var inner := LastPartIs(rest, sep);
      assert s == s[..cut] + sep + rest;
      if Contains(rest, sep) {
        before := s[..cut] + sep + inner;
      } else {
        before := s[..cut];
      }
    }
  }

  lemma NamedIff(env: Env, name: string)
    requires '/' !in name
    ensures HasFileNamed(env, name) <==> HasNamed(env, name)
  {
    hide Cut;
    forall f ensures FileName(f) == name <==> f == name || exists dir: string :: f == dir + "/" + name {
      var before := LastPartIs(f, "/");
      CutIsAt(f, '/');
      CutIsAt(FileName(f), '/');
      if dir: string :| f == dir + "/" + name {
        assert f[|dir|] == '/';
        LastSlashIsOne(before, FileName(f), dir, name);
      }
    }
  }

  /** Two ways to part a text at its last slash are one. */
  lemma LastSlashIsOne(a: string, x: string, b: string, y: string)
    requires a + "/" + x == b + "/" + y && '/' !in x && '/' !in y
    ensures x == y
  {
    var s := a + "/" + x;
    assert s[|a|] == '/' && s[|b|] == '/';
    assert forall k | |a| < k < |s| :: s[k] == x[k - |a| - 1];
    assert forall k | |b| < k < |s| :: s[k] == y[k - |b| - 1];
    assert |a| == |b|;
    assert s[|a| + 1..] == x && s[|b| + 1..] == y;
  }

  /* ---------- one piece of evidence ---------- */

  /** What the check of each type asks, and the fields it knows. */
  ghost predicate Passes(env: Env, read: Reading, entry: Value) {
    && entry.Map?
    && exists kind, text ::
         && Has(entry.entries, "type", Str(kind)) && HasText(entry.entries, "ref", text)
         && match kind {
              case "test" => OnlyKeys(entry.entries, {"type", "ref"}) && TestPasses(env, Strip(text))
              case "script" =>
                && OnlyKeys(entry.entries, {"type", "ref", "timeout_seconds"})
                && ScriptPasses(env, entry.entries, Strip(text))
              case "manifest_field" =>
                && OnlyKeys(entry.entries, {"type", "ref", "equals"})
                && FieldPasses(env, read, entry.entries, Strip(text))
              case "artifact_hash" =>
                && OnlyKeys(entry.entries, {"type", "ref", "sha256"})
                && HashPasses(env, entry.entries, Strip(text))
              case _ => false
            }
  }

  /** An entry has no failure exactly when it passes. */
  lemma EvidenceIff(env: Env, read: Reading, entry: Value)
    requires ComparesNumbers(env, read) && ReadsPlain(env) && IsPlain(entry)
    ensures EvidenceHolds(env, entry) <==> Passes(env, read, entry)
  {
    hide Has, HasText, TestHolds, TestPasses, ScriptHolds, ScriptPasses, ManifestHolds, FieldPasses, ArtifactHolds;
    hide HashPasses, TextAt, Strip, ComparesNumbers, ReadsPlain, IsPlain;
    if entry.Map? {
      var entries := entry.entries;
      GetIff(entries, "type");
      TextAtIff(entries, "ref");
      if Get(entries, "type").Some? && Get(entries, "type").value.Str? && TextAt(entries, "ref").Some? {
        var kind, text := Get(entries, "type").value.s, TextAt(entries, "ref").value;
        assert Has(entries, "type", Str(kind)) && HasText(entries, "ref", text);
        TestIff(env, Strip(text));
        ScriptIff(env, entries, Strip(text));
        FieldIff(env, read, entries, Strip(text));
        HashIff(env, entries, Strip(text));
        KindsAre(kind, entries);
      }
    }
  }

  lemma KindsAre(kind: string, entries: seq<Entry>)
    ensures kind in EVIDENCE_KEYS <==> kind in {"test", "script", "manifest_field", "artifact_hash"}
    ensures kind in EVIDENCE_KEYS ==>
      (KeysWithin(entries, EVIDENCE_KEYS[kind]) <==>
        match kind {
          case "test" => OnlyKeys(entries, {"type", "ref"})
          case "script" => OnlyKeys(entries, {"type", "ref", "timeout_seconds"})
          case "manifest_field" => OnlyKeys(entries, {"type", "ref", "equals"})
          case _ => OnlyKeys(entries, {"type", "ref", "sha256"})
        })
  {
  }

  /* ---------- claims and the matrix ---------- */

  /** A C and one or more digits. */
  predicate IsId(id: string) {
    |id| > 1 && id[0] == 'C' && forall k | 1 <= k < |id| :: '0' <= id[k] <= '9'
  }

  /** The file of a source locator: what stands before its first '#', trimmed. */
  ghost predicate NamesFile(locator: string, file: string) {
    exists n: nat :: IsFirst(locator, '#', n) && file == Strip(locator[..n]) && file != ""
  }

  lemma SourceFileIs(locator: string)
    ensures forall file :: SourceFile(locator) == file && file != "" <==> NamesFile(Strip(locator), file)
  {
    hide Cut, Strip;
    CutIsAt(Strip(locator), '#');
  }

  /** A row that is right on its own: its id, its text, the file it quotes and its evidence. */
  ghost predicate ClaimPasses(env: Env, read: Reading, claim: Value, id: string) {
    && claim.Map? && OnlyKeys(claim.entries, {"id", "claim", "source", "evidence"})
    && Has(claim.entries, "id", Str(id)) && IsId(id)
    && (exists text :: HasText(claim.entries, "claim", text))
    && (exists locator, file ::
          HasText(claim.entries, "source", locator) && NamesFile(Strip(locator), file) && file in env.files)
    && (exists evidence ::
          && Has(claim.entries, "evidence", List(evidence)) && evidence != []
          && forall k | 0 <= k < |evidence| :: Passes(env, read, evidence[k]))
  }

  lemma ClaimIff(env: Env, read: Reading, claim: Value)
    requires ComparesNumbers(env, read) && ReadsPlain(env) && IsPlain(claim)
    ensures ClaimHolds(env, claim) <==> exists id :: ClaimPasses(env, read, claim, id)
    ensures forall id | ClaimPasses(env, read, claim, id) :: ClaimIdOf(claim) == Some(id)
  {
    hide Has, HasText, Strip, NamesFile, SourceFile, TextAt, EvidenceHolds, Passes;
    hide ComparesNumbers, ReadsPlain, IsPlain;
    if claim.Map? {
      var entries := claim.entries;
      GetIff(entries, "id");
      TextAtIff(entries, "claim");
      SourceIff(env, entries);
      EvidenceListIff(env, read, entries);
      if ClaimHolds(env, claim) {
        assert ClaimPasses(env, read, claim, ClaimIdOf(claim).value);
      }
    }
  }

  lemma SourceIff(env: Env, entries: seq<Entry>)
    ensures SourceHolds(env, entries)
       <==> exists locator, file ::
              HasText(entries, "source", locator) && NamesFile(Strip(locator), file) && file in env.files
  {
    hide HasText, Strip, NamesFile, SourceFile, TextAt;
    TextAtIff(entries, "source");
    if TextAt(entries, "source").Some? {
      SourceFileIs(TextAt(entries, "source").value);
    }
  }

  lemma EvidenceListIff(env: Env, read: Reading, entries: seq<Entry>)
    requires ComparesNumbers(env, read) && ReadsPlain(env) && IsPlain(Map(entries))
    ensures EvidenceListHolds(env, entries)
       <==> exists evidence ::
              && Has(entries, "evidence", List(evidence)) && evidence != []
              && forall k | 0 <= k < |evidence| :: Passes(env, read, evidence[k])
  {
    hide Has, EvidenceHolds, Passes, ComparesNumbers, ReadsPlain, IsPlain;
    GetIff(entries, "evidence");
    var found := Get(entries, "evidence");
    if found.Some? && found.value.List? {
      PlainUnder(entries, "evidence", found.value);
      forall k | 0 <= k < |found.value.items|
        ensures EvidenceHolds(env, found.value.items[k]) <==> Passes(env, read, found.value.items[k])
      {
        PlainItem(found.value.items, k);
        EvidenceIff(env, read, found.value.items[k]);
      }
      assert Has(entries, "evidence", List(found.value.items));
    }
  }

  lemma PlainItem(items: seq<Value>, k: nat)
    requires IsPlain(List(items)) && k < |items|
    ensures IsPlain(items[k])
  {
  }

  /** A matrix of schema version 1 with known fields and at least one claim, all of them right, no id twice. */
  ghost predicate MatrixPasses(env: Env, read: Reading, doc: Value) {
    && doc.Map? && OnlyKeys(doc.entries, {"schema_version", "repo", "claims"})
    && Has(doc.entries, "schema_version", Int(1))
    && (Lacks(doc.entries, "repo") || Has(doc.entries, "repo", Null)
        || exists name :: HasText(doc.entries, "repo", name))
    && (exists claims, ids: seq<string> ::
          && Has(doc.entries, "claims", List(claims)) && claims != [] && |ids| == |claims|
          && (forall k | 0 <= k < |claims| :: ClaimPasses(env, read, claims[k], ids[k]))
          && (forall i, j | 0 <= i < j < |ids| :: ids[i] != ids[j]))
  }

  /** The verifier's verdict: exit code 0 is given exactly to a matrix that passes. */
  lemma VerifiedIff(env: Env, read: Reading, doc: Value)
    requires ComparesNumbers(env, read) && ReadsPlain(env) && IsPlain(doc)
    ensures IsVerified(env, doc) <==> MatrixPasses(env, read, doc)
  {
    hide Has, HasText, TextAt, ClaimHolds, ClaimPasses, ComparesNumbers, ReadsPlain, IsPlain, ClaimIdOf, Lacks;
    if doc.Map? {
      var entries := doc.entries;
      GetIff(entries, "schema_version");
      GetIff(entries, "repo");
      GetIff(entries, "claims");
      TextAtIff(entries, "repo");
      var found := Get(entries, "claims");
      if found.Some? && found.value.List? {
        PlainUnder(entries, "claims", found.value);
        AllClaimsIff(env, read, found.value.items);
        assert Has(entries, "claims", List(found.value.items));
      }
    }
  }

  lemma AllClaimsIff(env: Env, read: Reading, claims: seq<Value>)
    requires ComparesNumbers(env, read) && ReadsPlain(env) && IsPlain(List(claims))
    ensures AllHold(env, claims)
       <==> exists ids: seq<string> ::
              && |ids| == |claims|
              && (forall k | 0 <= k < |claims| :: ClaimPasses(env, read, claims[k], ids[k]))
              && (forall i, j | 0 <= i < j < |ids| :: ids[i] != ids[j])
  {
    hide ClaimHolds, ClaimPasses, ComparesNumbers, ReadsPlain, IsPlain, ClaimIdOf;
    forall k | 0 <= k < |claims|
      ensures ClaimHolds(env, claims[k]) <==> exists id :: ClaimPasses(env, read, claims[k], id)
      ensures forall id | ClaimPasses(env, read, claims[k], id) :: ClaimIdOf(claims[k]) == Some(id)
    {
      PlainItem(claims, k);
      ClaimIff(env, read, claims[k]);
    }
    if AllHold(env, claims) {
      var ids := seq(|claims|, k requires 0 <= k < |claims| => ClaimIdOf(claims[k]).UnwrapOr(""));
      forall k | 0 <= k < |claims| ensures ClaimPasses(env, read, claims[k], ids[k]) {
        var id :| ClaimPasses(env, read, claims[k], id);
      }
      forall i, j | 0 <= i < j < |ids| ensures ids[i] != ids[j] {
        assert ClaimPasses(env, read, claims[i], ids[i]) && ClaimPasses(env, read, claims[j], ids[j]);
      }
    }
    if ids: seq<string> :| && |ids| == |claims|
                           && (forall k | 0 <= k < |claims| :: ClaimPasses(env, read, claims[k], ids[k]))
                           && (forall i, j | 0 <= i < j < |ids| :: ids[i] != ids[j]) {
      forall i, j | 0 <= i < j < |claims| && ClaimIdOf(claims[i]).Some?
        ensures ClaimIdOf(claims[i]) != ClaimIdOf(claims[j])
      {
        assert ClaimPasses(env, read, claims[i], ids[i]) && ClaimPasses(env, read, claims[j], ids[j]);
      }
    }
  }

  /* ---------- what is parsed is plain ---------- */

  /** Flow values, whoever parses them, are plain. */
  ghost predicate FlowsPlain(flow: FlowParser) {
    forall text | flow(text).Ok? :: IsPlain(flow(text).value)
  }

  ghost predicate ArePlain(entries: seq<Entry>) {
    IsPlain(Map(entries))
  }

  lemma {:induction false} PutKeepsPlain(entries: seq<Entry>, key: string, value: Value)
    requires ArePlain(entries) && IsPlain(value)
    ensures ArePlain(Put(entries, key, value))
    ensures forall k | 0 <= k < |Put(entries, key, value)| ::
              Put(entries, key, value)[k].key == key
              || exists j | 0 <= j < |entries| :: entries[j].key == Put(entries, key, value)[k].key
  {
    hide IsPlain;
    PlainParts(entries);
    if entries != [] && entries[0].key != key {
      var rest := entries[1..];
      assert forall k | 0 <= k < |rest| :: rest[k] == entries[k + 1];
      PlainWhole(rest);
      PutKeepsPlain(rest, key, value);
      var r := Put(rest, key, value);
      PlainParts(r);
      assert Put(entries, key, value) == [entries[0]] + r;
      forall k | 0 <= k < |r| ensures r[k].key != entries[0].key {
        if r[k].key != key {
          var j :| 0 <= j < |rest| && rest[j].key == r[k].key;
          assert entries[j + 1].key == r[k].key;
        }
      }
      forall k | 0 <= k < |r| && r[k].key != key ensures exists j | 0 <= j < |entries| :: entries[j].key == r[k].key {
        var j :| 0 <= j < |rest| && rest[j].key == r[k].key;
        assert entries[j + 1].key == r[k].key;
      }
    }
    PlainWhole(Put(entries, key, value));
  }

  lemma PlainParts(entries: seq<Entry>)
    requires ArePlain(entries)
    ensures DistinctKeys(entries) && forall k | 0 <= k < |entries| :: IsPlain(entries[k].value)
  {
  }

  lemma PlainWhole(entries: seq<Entry>)
    requires DistinctKeys(entries) && forall k | 0 <= k < |entries| :: IsPlain(entries[k].value)
    ensures ArePlain(entries)
  {
  }

  lemma ScalarIsPlain(flow: FlowParser, text: string)
    requires FlowsPlain(flow) && ParseInline(flow, text).Ok?
    ensures IsPlain(ParseInline(flow, text).value)
  {
    hide Replace, ParseInt, IsFloatText;
  }

  lemma {:induction false} BlockIsPlain(flow: FlowParser, lines: seq<Line>, i: nat, minIndent: nat)
    requires FlowsPlain(flow) && i <= |lines| && ParseBlock(flow, lines, i, minIndent).Ok?
    ensures IsPlain(ParseBlock(flow, lines, i, minIndent).value.value)
    decreases |lines| - i, 3
  {
    hide FlowsPlain, ParseList, ParseMapping;
    NothingIsPlain();
    if i < |lines| && lines[i].indent >= minIndent {
      if IsItem(lines[i].content) {
        ListIsPlain(flow, lines, i, lines[i].indent, []);
      } else {
        MappingIsPlain(flow, lines, i, lines[i].indent, []);
      }
    }
  }

  lemma NothingIsPlain()
    ensures IsPlain(Null) && IsPlain(List([])) && ArePlain([])
    ensures forall s :: IsPlain(Str(s))
  {
  }

  lemma {:induction false} MappingIsPlain(flow: FlowParser, lines: seq<Line>, i: nat, indent: nat, out: seq<Entry>)
    requires FlowsPlain(flow) && i <= |lines| && ParseMapping(flow, lines, i, indent, out).Ok? && ArePlain(out)
    ensures IsPlain(ParseMapping(flow, lines, i, indent, out).value.value)
    decreases |lines| - i, 0
  {
    hide FlowsPlain, SplitKey, ParseEntryValue, IsPlain;
    if i < |lines| && lines[i].indent == indent && !IsItem(lines[i].content) {
      var split := SplitKey(lines[i].content).value;
      EntryIsPlain(flow, lines, i + 1, indent, split.rest);
      var entry := ParseEntryValue(flow, lines, i + 1, indent, split.rest).value;
      PutKeepsPlain(out, split.key, entry.value);
      MappingIsPlain(flow, lines, entry.next, indent, Put(out, split.key, entry.value));
    }
  }

  lemma {:induction false} EntryIsPlain(flow: FlowParser, lines: seq<Line>, i: nat, indent: nat, rest: string)
    requires FlowsPlain(flow) && i <= |lines| && ParseEntryValue(flow, lines, i, indent, rest).Ok?
    ensures IsPlain(ParseEntryValue(flow, lines, i, indent, rest).value.value)
    decreases |lines| - i, 4
  {
    hide FlowsPlain, ParseList, ParseBlock, ParseInline, IsPlain, BlockScalarText;
    NothingIsPlain();
    if rest == "" {
      if i < |lines| && lines[i].indent > indent {
        BlockIsPlain(flow, lines, i, lines[i].indent);
      } else if i < |lines| && lines[i].indent == indent && IsItem(lines[i].content) {
        ListIsPlain(flow, lines, i, indent, []);
      }
    } else if !IsBlockIndicator(rest) {
      ScalarIsPlain(flow, rest);
    }
  }

  lemma {:induction false} ItemIsPlain(flow: FlowParser, lines: seq<Line>, i: nat, indent: nat)
    requires FlowsPlain(flow) && i < |lines| && lines[i].indent == indent && IsItem(lines[i].content)
    requires ParseItem(flow, lines, i, indent).Ok?
    ensures IsPlain(ParseItem(flow, lines, i, indent).value.value)
    decreases |lines| - i, 1
  {
    hide FlowsPlain, SplitKey, ParseMapping, ParseBlock, ParseInline, IsPlain, ItemLines;
    NothingIsPlain();
    var item := ItemText(lines[i].content);
    if item == "" {
      if i + 1 < |lines| && lines[i + 1].indent > indent {
        BlockIsPlain(flow, lines, i + 1, lines[i + 1].indent);
      }
    } else if SplitKey(item).Some? {
      MappingIsPlain(flow, ItemLines(lines, i, indent), 0, indent + 2, []);
    } else {
      ScalarIsPlain(flow, item);
    }
  }

  lemma {:induction false} ListIsPlain(flow: FlowParser, lines: seq<Line>, i: nat, indent: nat, out: seq<Value>)
    requires FlowsPlain(flow) && i <= |lines| && ParseList(flow, lines, i, indent, out).Ok? && IsPlain(List(out))
    ensures IsPlain(ParseList(flow, lines, i, indent, out).value.value)
    decreases |lines| - i, 2
  {
    hide FlowsPlain, ParseItem, IsPlain;
    if i < |lines| && lines[i].indent == indent && IsItem(lines[i].content) {
      ItemIsPlain(flow, lines, i, indent);
      var item := ParseItem(flow, lines, i, indent).value;
      OneMorePlain(out, item.value);
      ListIsPlain(flow, lines, item.next, indent, out + [item.value]);
    }
  }

  lemma OneMorePlain(out: seq<Value>, v: Value)
    requires IsPlain(List(out)) && IsPlain(v)
    ensures IsPlain(List(out + [v]))
  {
  }

  /** Whatever text is parsed, no dict in the result has a key twice. */
  lemma ParsedIsPlain(flow: FlowParser, text: string)
    requires FlowsPlain(flow) && ParseYamlSubset(flow, text).Ok?
    ensures IsPlain(ParseYamlSubset(flow, text).value)
  {
    hide FlowsPlain, ParseBlock, PrepLines, IsPlain;
    NothingIsPlain();
    var lines := PrepLines(text).value;
    if lines != [] {
      BlockIsPlain(flow, lines, 0, lines[0].indent);
    }
  }

  /** From the text: exit code 0 is given exactly to a matrix text whose document passes every check. */
  lemma TextIsVerifiedIff(flow: FlowParser, env: Env, read: Reading, text: string)
    requires FlowsPlain(flow) && ComparesNumbers(env, read) && ReadsPlain(env)
    ensures
      var doc := ParseYamlSubset(flow, text);
      doc.Ok? ==> (IsVerified(env, doc.value) <==> MatrixPasses(env, read, doc.value))
  {
    hide ParseYamlSubset, IsVerified, MatrixPasses, FlowsPlain, ComparesNumbers, ReadsPlain, IsPlain;
    if ParseYamlSubset(flow, text).Ok? {
      ParsedIsPlain(flow, text);
      VerifiedIff(env, read, ParseYamlSubset(flow, text).value);
    }
  }
}
