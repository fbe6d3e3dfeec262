/**
 What a passing test ref of an evidence matrix says: which occurrence in the file lets it pass, and
 exactly when that is the definition of the function it names.
 */
module TestRefs {
  import opened Outcomes
  import opened PyText
  import opened EvidenceMatrix

  /* ---------- passing ---------- */

  /** What stands before the first "::" of a pytest node id, and after it. */
  function FileOf(ref: string): string
    requires Contains(ref, "::")
  {
    ref[..Cut(ref, "::")]
  }

  function RestOf(ref: string): string
    requires Contains(ref, "::")
  {
    ref[Cut(ref, "::") + 2..]
  }

  /** The node that is looked for: the last part, stripped. */
  function NodeOf(ref: string): string
    requires Contains(ref, "::")
  {
    Strip(LastPart(RestOf(ref), "::"))
  }

  /**
   A pytest node id passes exactly when its file is in the tree, what follows is not blank, and the
   last part of that, if it is not blank, stands somewhere in the text after "def" and a blank.
   */
  lemma NodePassesIff(env: Env, ref: string)
    requires Contains(ref, "::")
    ensures TestHolds(env, ref)
       <==> && FileOf(ref) in env.files && !IsBlankText(FileOf(ref)) && !IsBlankText(RestOf(ref))
            && (NodeOf(ref) == "" || exists k: nat :: At(env.text(FileOf(ref)), k, "def " + NodeOf(ref)))
  {
    hide Cut, LastPart, Strip, At;
    CutIsFirst(env.text(FileOf(ref)), "def " + NodeOf(ref));
  }

  /** Only the last part counts: with a class before the node a ref passes exactly when it passes without. */
  lemma ClassIsNotAsked(env: Env, file: string, group: string, node: string)
    requires Cut(file + "::" + node, "::") == |file| == Cut(file + "::" + group + "::" + node, "::")
    requires Cut(group + "::" + node, "::") == |group| && !Contains(node, "::") && !IsBlankText(node)
    ensures TestHolds(env, file + "::" + group + "::" + node) <==> TestHolds(env, file + "::" + node)
  {
    hide Cut, Strip;
    var long, short, rest := file + "::" + group + "::" + node, file + "::" + node, group + "::" + node;
    assert long[..|file|] == file == short[..|file|];
    assert long[|file| + 2..] == rest && short[|file| + 2..] == node && rest[|group| + 2..] == node;
    assert LastPart(rest, "::") == LastPart(node, "::") == node;
    assert rest[|group|] == ':';
    HeldIsNotBlank(rest, |group|);
  }

  lemma HeldIsNotBlank(s: string, k: nat)
    requires k < |s| && !IsSpace(s[k])
    ensures !IsBlankText(s)
  {
    LStripHolds(s, k);
    LStripEnds(s);
    RStripHolds(LStrip(s));
  }

  lemma {:induction false} LStripHolds(s: string, k: nat)
    requires k < |s| && !IsSpace(s[k])
    ensures LStrip(s) != ""
  {
    if k > 0 && IsSpace(s[0]) {
      LStripHolds(s[1..], k - 1);
    }
  }

  lemma {:induction false} RStripHolds(s: string)
    requires s != "" && !IsSpace(s[0])
    ensures RStrip(s) != ""
  {
    if IsSpace(s[|s| - 1]) {
      RStripHolds(s[..|s| - 1]);
    }
  }

  /* ---------- names ---------- */

  /** The run of identifier characters at k. */
  function NameAt(ident: char -> bool, text: string, k: nat): string
    requires k <= |text|
    decreases |text| - k
  {
    if k < |text| && ident(text[k]) then [text[k]] + NameAt(ident, text, k + 1) else ""
  }

  predicate IsName(ident: char -> bool, s: string) {
    s != "" && forall k | 0 <= k < |s| :: ident(s[k])
  }

  /** No identifier character stands at k. */
  predicate EndsName(ident: char -> bool, text: string, k: nat) {
    k >= |text| || !ident(text[k])
  }

  lemma OccursFirst(text: string, node: string, k: nat)
    requires node != "" && At(text, k, node)
    ensures k < |text| && text[k] == node[0]
  {
    assert text[k..k + |node|][0] == text[k];
  }

  lemma OccursNext(text: string, node: string, k: nat)
    requires node != "" && k < |text| && text[k] == node[0]
    ensures At(text, k, node) <==> At(text, k + 1, node[1..])
  {
    if k + |node| <= |text| {
      assert text[k..k + |node|] == [text[k]] + text[k + 1..k + |node|];
    }
  }

  /** The name at k starts with the node where the node stands there; it is the node where it also ends. */
  lemma {:induction false} NameStartsIff(ident: char -> bool, text: string, k: nat, node: string)
    requires k <= |text| && forall j | 0 <= j < |node| :: ident(node[j])
    ensures node <= NameAt(ident, text, k) <==> At(text, k, node)
    ensures node == NameAt(ident, text, k) <==> At(text, k, node) && EndsName(ident, text, k + |node|)
    decreases |node|
  {
    if node != "" {
      if At(text, k, node) {
        OccursFirst(text, node, k);
      }
      if k < |text| && text[k] == node[0] {
        var rest := node[1..];
        assert forall j | 0 <= j < |rest| :: rest[j] == node[j + 1];
        NameStartsIff(ident, text, k + 1, rest);
        assert NameAt(ident, text, k) == [text[k]] + NameAt(ident, text, k + 1);
        assert node == [node[0]] + rest;
        OccursNext(text, node, k);
      }
    }
  }

  lemma DefOccursIff(text: string, k: nat, node: string)
    ensures At(text, k, "def " + node) <==> At(text, k, "def ") && At(text, k + 4, node)
  {
    var sought := "def " + node;
    if k + |sought| <= |text| {
      var whole := text[k..k + |sought|];
      assert whole[..4] == text[k..k + 4] && whole[4..] == text[k + 4..k + 4 + |node|];
      assert sought[..4] == "def " && sought[4..] == node;
      assert whole == whole[..4] + whole[4..];
    }
  }

  /* ---------- definitions ---------- */

  /** A line starts at k; reading a text file leaves "\n" as the only line end. */
  predicate StartsLine(text: string, k: nat) {
    k <= |text| && (k == 0 || text[k - 1] == '\n')
  }

  predicate AllBlank(text: string, from: nat, to: nat) {
    to <= |text| && forall k | from <= k < to :: IsBlank(text[k])
  }

  /** The first position from k on that is not blank. */
  function SkipBlanks(text: string, k: nat): (n: nat)
    requires k <= |text|
    ensures k <= n <= |text| && AllBlank(text, k, n) && (n < |text| ==> !IsBlank(text[n]))
    decreases |text| - k
  {
    if k < |text| && IsBlank(text[k]) then SkipBlanks(text, k + 1) else k
  }

  /** Where the statement of a line begins: past its indentation and past "async". */
  function StatementAt(text: string, k: nat): (n: nat)
    requires k <= |text|
    ensures n <= |text|
  {
    var first := SkipBlanks(text, k);
    if !At(text, first, "async") then first
    else if SkipBlanks(text, first + 5) == first + 5 then first
    else SkipBlanks(text, first + 5)
  }

  /** The name of the function that the line at k defines. */
  function DefinedOn(ident: char -> bool, text: string, k: nat): Option<string>
    requires k <= |text|
  {
    var start := StatementAt(text, k);
    if At(text, start, "def ") then Some(NameAt(ident, text, start + 4)) else None
  }

  /** Some line defines a function of exactly this name. */
  ghost predicate Defines(ident: char -> bool, text: string, node: string) {
    exists k: nat :: StartsLine(text, k) && DefinedOn(ident, text, k) == Some(node)
  }

  /** Before i its line holds nothing but white space, or "async" between white space. */
  ghost predicate OpensLine(text: string, i: nat) {
    exists k: nat, j: nat :: OpensFrom(text, k, j, i)
  }

  predicate OpensFrom(text: string, k: nat, j: nat, i: nat) {
    && StartsLine(text, k) && k <= j && AllBlank(text, k, j)
    && (j == i || (At(text, j, "async") && j + 5 < i && AllBlank(text, j + 5, i)))
  }

  /** This occurrence defines the function: it opens its line and ends its name. */
  ghost predicate IsDefinition(ident: char -> bool, text: string, i: nat, node: string) {
    At(text, i, "def " + node) && EndsName(ident, text, i + 4 + |node|) && OpensLine(text, i)
  }

  /** Reading line by line finds a function of this name exactly when some occurrence is a definition of it. */
  lemma DefinesIff(ident: char -> bool, text: string, node: string)
    requires IsName(ident, node)
    ensures Defines(ident, text, node) <==> exists i: nat :: IsDefinition(ident, text, i, node)
  {
    hide NameAt, EndsName, OpensFrom, At;
    if k: nat :| StartsLine(text, k) && DefinedOn(ident, text, k) == Some(node) {
      var i := StatementAt(text, k);
      StatementOpens(text, k);
      DefOccursIff(text, i, node);
      DefIsLong(text, i);
      NameStartsIff(ident, text, i + 4, node);
      assert IsDefinition(ident, text, i, node);
    }
    if i: nat :| IsDefinition(ident, text, i, node) {
      var k: nat, j: nat :| OpensFrom(text, k, j, i);
      DefOccursIff(text, i, node);
      DefIsLong(text, i);
      OpensAt(text, k, j, i);
      NameStartsIff(ident, text, i + 4, node);
      assert DefinedOn(ident, text, k) == Some(node);
    }
  }

  lemma DefIsLong(text: string, i: nat)
    requires At(text, i, "def ")
    ensures i + 4 <= |text| && text[i] == 'd'
  {
    OccursFirst(text, "def ", i);
  }

  lemma StatementOpens(text: string, k: nat)
    requires StartsLine(text, k)
    ensures OpensLine(text, StatementAt(text, k))
  {
    assert OpensFrom(text, k, SkipBlanks(text, k), StatementAt(text, k));
  }

  /** What opens a line from k is the statement of that line. */
  lemma OpensAt(text: string, k: nat, j: nat, i: nat)
    requires OpensFrom(text, k, j, i) && i < |text| && text[i] == 'd'
    ensures StartsLine(text, k) && StatementAt(text, k) == i
  {
    if At(text, j, "async") {
      OccursFirst(text, "async", j);
    }
    if At(text, SkipBlanks(text, k), "async") {
      OccursFirst(text, "async", SkipBlanks(text, k));
    }
    SkipEndsAt(text, k, j);
    if j != i {
      SkipEndsAt(text, j + 5, i);
    }
  }

  lemma SkipEndsAt(text: string, k: nat, n: nat)
    requires k <= n < |text| && AllBlank(text, k, n) && !IsBlank(text[n])
    ensures SkipBlanks(text, k) == n
  {
    if SkipBlanks(text, k) > n {
      assert false;
    }
  }

  /* ---------- what a passing ref promises ---------- */

  /**
   The promise is that the test function exists. A ref to a function that its file defines passes;
   a passing ref names a function of its file exactly when one of the occurrences is a definition:
   when it opens its line and no identifier character follows the name. Elsewhere the ref passes
   on the beginning of a longer name, or on a comment or a string.
   */
  lemma PassingIsDefinedIff(env: Env, ident: char -> bool, ref: string)
    requires Contains(ref, "::")
    requires FileOf(ref) in env.files && !IsBlankText(FileOf(ref)) && !IsBlankText(RestOf(ref))
    requires IsName(ident, NodeOf(ref))
    ensures
      var text, node := env.text(FileOf(ref)), NodeOf(ref);
      && (Defines(ident, text, node) ==> TestHolds(env, ref))
      && (Defines(ident, text, node) <==> exists i: nat :: IsDefinition(ident, text, i, node))
  {
    hide FileOf, RestOf, NodeOf, At, TestHolds, Defines, EndsName, OpensLine;
    var text, node := env.text(FileOf(ref)), NodeOf(ref);
    NodePassesIff(env, ref);
    DefinesIff(ident, text, node);
    if Defines(ident, text, node) {
      var i: nat :| IsDefinition(ident, text, i, node);
      assert At(text, i, "def " + node);
    }
  }

  /* ---------- refs that pass on no function ---------- */

  predicate IsIdentifierChar(c: char) {
    'a' <= c <= 'z' || 'A' <= c <= 'Z' || IsDigit(c) || c == '_'
  }

  function OneFile(text: string): Env {
    Env({"t.py"}, f => text, v => "", (f, v) => false, f => None, f => "", f => false, (a, b) => false,
        (n, f) => false)
  }

  const LONGER := "def test_ab"
  const COMMENT := "# def test_a"

  /** A ref to `test_a` passes on a file that only defines `test_ab`. */
  lemma LongerNamePasses()
    ensures TestHolds(OneFile(LONGER), "t.py::test_a")
    ensures !Defines(c => IsIdentifierChar(c), LONGER, "test_a")
  {
    hide TestHolds, Cut, At, IsDefinition, Defines;
    var ident := (c: char) => IsIdentifierChar(c);
    PassesAt(LONGER, 0);
    DefinesIff(ident, LONGER, "test_a");
    forall i: nat ensures !IsDefinition(ident, LONGER, i, "test_a") {
      if IsDefinition(ident, LONGER, i, "test_a") {
        DefinitionAt(ident, LONGER, i);
        assert false;
      }
    }
  }

  /** It passes on a file that only mentions it in a comment. */
  lemma CommentPasses()
    ensures TestHolds(OneFile(COMMENT), "t.py::test_a")
    ensures !Defines(c => IsIdentifierChar(c), COMMENT, "test_a")
  {
    hide TestHolds, Cut, At, IsDefinition, Defines;
    var ident := (c: char) => IsIdentifierChar(c);
    PassesAt(COMMENT, 2);
    DefinesIff(ident, COMMENT, "test_a");
    forall i: nat ensures !IsDefinition(ident, COMMENT, i, "test_a") {
      if IsDefinition(ident, COMMENT, i, "test_a") {
        DefinitionAt(ident, COMMENT, i);
        assert false;
      }
    }
  }

  /** A ref whose last part is blank passes on every file, whatever is in it. */
  lemma BlankPartPasses(text: string)
    ensures TestHolds(OneFile(text), "t.py::x::")
  {
    hide Cut, Strip, TestHolds;
    var ref := "t.py::x::";
    assert ref[4..6] == "::" && ref[..4] == "t.py" && ref[6..] == "x::";
    FirstOf(ref, "::", 4);
    assert "x::"[1..3] == "::" && "x::"[3..] == "";
    FirstOf("x::", "::", 1);
    assert !Contains("", "::") by { CutIsFirst("", "::"); }
    assert LastPart("", "::") == "" && LastPart("x::", "::") == "";
    StripKeepsTrimmed("t.py");
    StripKeepsTrimmed("x::");
    StripKeepsTrimmed("");
    NodePassesIff(OneFile(text), ref);
  }

  /** The ref to `test_a` passes on a text that holds its definition or something like it. */
  lemma PassesAt(text: string, k: nat)
    requires k + 10 <= |text| && text[k..k + 10] == "def test_a"
    ensures TestHolds(OneFile(text), "t.py::test_a")
  {
    hide Cut, Strip, TestHolds, LastPart;
    var ref := "t.py::test_a";
    assert ref[4..6] == "::" && ref[..4] == "t.py" && ref[6..] == "test_a";
    FirstOf(ref, "::", 4);
    NoColon();
    StripKeepsTrimmed("t.py");
    StripKeepsTrimmed("test_a");
    assert "def " + "test_a" == "def test_a";
    assert NodeOf(ref) == "test_a" && FileOf(ref) == "t.py";
    assert At(OneFile(text).text(FileOf(ref)), k, "def " + NodeOf(ref));
    NodePassesIff(OneFile(text), ref);
  }

  lemma NoColon()
    ensures LastPart("test_a", "::") == "test_a"
  {
    hide Cut;
    CutIsFirst("test_a", "::");
    forall k: nat ensures !At("test_a", k, "::") {
      if k + 2 <= 6 {
        assert "test_a"[k..k + 2][0] == "test_a"[k];
      }
    }
  }

  /** What a definition of `test_a` looks like around its first and after its last character. */
  lemma DefinitionAt(ident: char -> bool, text: string, i: nat)
    requires IsDefinition(ident, text, i, "test_a")
    ensures i + 10 <= |text| && text[i] == 'd' && EndsName(ident, text, i + 10)
    ensures exists k: nat | k <= i :: StartsLine(text, k) && (k < i ==> IsBlank(text[k]) || text[k] == 'a')
  {
    assert text[i..i + 10][0] == text[i];
    var k: nat, j: nat :| OpensFrom(text, k, j, i);
    if k == j && j < i {
      assert text[j..j + 5][0] == text[j];
    }
  }

  /** The first occurrence, given one with nothing like its first character before it. */
  lemma FirstOf(s: string, sought: string, k: nat)
    requires sought != "" && At(s, k, sought) && forall j | 0 <= j < k :: s[j] != sought[0]
    ensures Cut(s, sought) == k
  {
    CutIsFirst(s, sought);
    assert At(s, Cut(s, sought), sought);
    assert s[Cut(s, sought)..Cut(s, sought) + |sought|][0] == s[Cut(s, sought)];
  }
}
