/**
 SQL statement validation for the natural-language path: comment stripping as two successive
 leftmost substitutions, then the single-SELECT checks.
 */
module Guardrails {
  import opened Outcomes
  import opened PyText

  /* ---------- strip_comments ---------- */

  /** One leftmost, shortest match of a block comment: where it starts and where it ends. */
  function FindBlock(s: string): (m: Option<(nat, nat)>)
    ensures m.Some? ==> m.value.0 + 4 <= m.value.1 <= |s|
    ensures m.Some? ==> At(s, m.value.0, "/*") && At(s, m.value.1 - 2, "*/")
    ensures m.Some? ==> forall k | 0 <= k < m.value.0 :: !At(s, k, "/*")
    ensures m.None? ==> !HasClosedBlock(s)
  {
    var open := Find(s, "/*", 0);
    if open.None? then None else
      var close := Find(s, "*/", open.value + 2);
      if close.None? then None else Some((open.value, close.value + 2))
  }

  /** A block comment that is opened and, further on, closed. */
  ghost predicate HasClosedBlock(s: string) {
    exists i, j :: At(s, i, "/*") && i + 2 <= j && At(s, j, "*/")
  }

  /** Every block comment becomes one space, left to right. */
  function StripBlocks(s: string): string
    decreases |s|
  {
    var m := FindBlock(s);
    if m.None? then s else s[..m.value.0] + " " + StripBlocks(s[m.value.1..])
  }

  /** The length of the text up to the first line feed. */
  function LineLength(s: string): (n: nat)
    ensures n <= |s| && '\n' !in s[..n] && (n < |s| ==> s[n] == '\n')
  {
    if s == "" || s[0] == '\n' then 0 else
      assert s == [s[0]] + s[1..];
      var n := 1 + LineLength(s[1..]);
      assert s[..n] == [s[0]] + s[1..][..n - 1];
      n
  }

  /** Every line comment becomes one space, left to right. */
  function StripLines(s: string): string
    decreases |s|
  {
    if s == "" then ""
    else if "--" <= s then " " + StripLines(s[LineLength(s)..])
    else [s[0]] + StripLines(s[1..])
  }

  function StripComments(sql: string): string {
    StripLines(StripBlocks(sql))
  }

  /* ---------- block comments ---------- */

  lemma AtShift(s: string, i: int, p: string, n: nat)
    requires n <= |s|
    ensures i >= 0 ==> (At(s[n..], i, p) <==> At(s, i + n, p))
  {
    if 0 <= i && i + |p| <= |s| - n {
      assert s[n..][i..i + |p|] == s[i + n..i + n + |p|];
    }
  }

  lemma AtTwo(s: string, i: int, p: string)
    requires |p| == 2
    ensures At(s, i, p) <==> 0 <= i && i + 2 <= |s| && s[i] == p[0] && s[i + 1] == p[1]
  {
    if 0 <= i && i + 2 <= |s| && s[i] == p[0] && s[i + 1] == p[1] {
      assert s[i..i + 2] == [s[i], s[i + 1]] == p;
    }
  }

  /** Joining a text without an opening, a space, and a text without closed blocks makes no closed block. */
  lemma JoinOpensNothing(head: string, tail: string)
    requires forall k :: !At(head, k, "/*")
    requires !HasClosedBlock(tail)
    ensures !HasClosedBlock(head + " " + tail)
  {
    var out := head + " " + tail;
    forall i, j | At(out, i, "/*") && i + 2 <= j && At(out, j, "*/")
      ensures false
    {
      AtTwo(out, i, "/*");
      AtTwo(out, j, "*/");
      var n := |head| + 1;
      if i + 1 < |head| {
        AtTwo(head, i, "/*");
      } else {
        AtTwo(tail, i - n, "/*");
        AtTwo(tail, j - n, "*/");
      }
    }
  }

  /** The first substitution leaves no closed block comment. */
  lemma {:induction false} StripBlocksClears(s: string)
    ensures !HasClosedBlock(StripBlocks(s))
    decreases |s|
  {
    var m := FindBlock(s);
    if m.Some? {
      var (from, to) := m.value;
      forall k
        ensures !At(s[..from], k, "/*")
      {
        AtTwo(s[..from], k, "/*");
        AtTwo(s, k, "/*");
      }
      StripBlocksClears(s[to..]);
      JoinOpensNothing(s[..from], StripBlocks(s[to..]));
    }
  }

  lemma StripBlocksKeeps(s: string)
    requires !HasClosedBlock(s)
    ensures StripBlocks(s) == s
  {
  }

  /* ---------- line comments ---------- */

  predicate NoDashes(s: string) {
    forall k | 0 < k < |s| :: s[k - 1] != '-' || s[k] != '-'
  }

  lemma StripLinesFirst(s: string)
    ensures StripLines(s) == "" <==> s == ""
    ensures s != "" ==> StripLines(s)[0] == if "--" <= s then ' ' else s[0]
  {
  }

  /** The second substitution leaves no "--". */
  lemma {:induction false} StripLinesClears(s: string)
    ensures NoDashes(StripLines(s))
    decreases |s|
  {
    if s == "" {
    } else if "--" <= s {
      StripLinesClears(s[LineLength(s)..]);
    } else {
      StripLinesClears(s[1..]);
      StripLinesFirst(s[1..]);
      var out, tail := StripLines(s), StripLines(s[1..]);
      forall k | 0 < k < |out|
        ensures out[k - 1] != '-' || out[k] != '-'
      {
        if k > 1 {
          assert out[k] == tail[k - 1] && out[k - 1] == tail[k - 2];
        }
      }
    }
  }

  lemma {:induction false} StripLinesKeeps(s: string)
    requires NoDashes(s)
    ensures StripLines(s) == s
  {
    if s != "" {
      assert NoDashes(s[1..]);
      StripLinesKeeps(s[1..]);
    }
  }

  /** A closing found after line stripping was there before. */
  lemma {:induction false} CloseTraces(s: string, j: nat) returns (j': nat)
    requires At(StripLines(s), j, "*/")
    ensures At(s, j', "*/")
    decreases |s|
  {
    hide At;
    AtTwo(StripLines(s), j, "*/");
    if "--" <= s {
      var n := LineLength(s);
      AtTwo(StripLines(s[n..]), j - 1, "*/");
      var k := CloseTraces(s[n..], j - 1);
      AtShift(s, k, "*/", n);
      j' := k + n;
    } else if j == 0 {
      StripLinesFirst(s[1..]);
      AtTwo(s, 0, "*/");
      j' := 0;
    } else {
      AtTwo(StripLines(s[1..]), j - 1, "*/");
      var k := CloseTraces(s[1..], j - 1);
      AtShift(s, k, "*/", 1);
      j' := k + 1;
    }
  }

  lemma BlockShift(s: string, n: nat)
    requires n <= |s| && HasClosedBlock(s[n..])
    ensures HasClosedBlock(s)
  {
    var a: nat, b: nat :| At(s[n..], a, "/*") && a + 2 <= b && At(s[n..], b, "*/");
    AtShift(s, a, "/*", n);
    AtShift(s, b, "*/", n);
    assert At(s, a + n, "/*") && a + n + 2 <= b + n && At(s, b + n, "*/");
  }

  /** A closed block found after line stripping was there before. */
  lemma {:induction false} BlockTraces(s: string, i: nat, j: nat)
    requires At(StripLines(s), i, "/*") && i + 2 <= j && At(StripLines(s), j, "*/")
    ensures HasClosedBlock(s)
    decreases |s|
  {
    hide At, HasClosedBlock;
    AtTwo(StripLines(s), i, "/*");
    AtTwo(StripLines(s), j, "*/");
    if "--" <= s || i > 0 {
      var n := if "--" <= s then LineLength(s) else 1;
      AtTwo(StripLines(s[n..]), i - 1, "/*");
      AtTwo(StripLines(s[n..]), j - 1, "*/");
      BlockTraces(s[n..], i - 1, j - 1);
      BlockShift(s, n);
    } else {
      OpensHere(s, j);
    }
  }

  /** The same when the block opens at the first character. */
  lemma OpensHere(s: string, j: nat)
    requires !("--" <= s) && At(StripLines(s), 0, "/*") && 2 <= j && At(StripLines(s), j, "*/")
    ensures HasClosedBlock(s)
  {
    hide At;
    AtTwo(StripLines(s), 0, "/*");
    AtTwo(StripLines(s), j, "*/");
    StripLinesFirst(s[1..]);
    AtTwo(s, 0, "/*");
    assert s[1..][1..] == s[2..];
    AtTwo(StripLines(s[2..]), j - 2, "*/");
    var k := CloseTraces(s[2..], j - 2);
    AtShift(s, k, "*/", 2);
    assert At(s, 0, "/*") && 0 + 2 <= k + 2 && At(s, k + 2, "*/");
  }

  lemma StripLinesOpensNothing(s: string)
    requires !HasClosedBlock(s)
    ensures !HasClosedBlock(StripLines(s))
  {
    if HasClosedBlock(StripLines(s)) {
      var i, j :| At(StripLines(s), i, "/*") && i + 2 <= j && At(StripLines(s), j, "*/");
      BlockTraces(s, i, j);
    }
  }

  /* ---------- both ---------- */

  ghost predicate CommentFree(s: string) {
    NoDashes(s) && !HasClosedBlock(s)
  }

  /** Stripping leaves no line comment and no closed block comment. */
  lemma StripCommentsClears(sql: string)
    ensures CommentFree(StripComments(sql))
  {
    StripBlocksClears(sql);
    StripLinesOpensNothing(StripBlocks(sql));
    StripLinesClears(StripBlocks(sql));
  }

  /** A text without comments is left alone, so stripping is idempotent. */
  lemma StripCommentsKeeps(s: string)
    requires CommentFree(s)
    ensures StripComments(s) == s
  {
    StripBlocksKeeps(s);
    StripLinesKeeps(s);
  }

  lemma StripCommentsIdempotent(sql: string)
    ensures StripComments(StripComments(sql)) == StripComments(sql)
  {
    StripCommentsClears(sql);
    StripCommentsKeeps(StripComments(sql));
  }

  lemma SliceIsCommentFree(s: string, from: nat, to: nat)
    requires CommentFree(s) && from <= to <= |s|
    ensures CommentFree(s[from..to])
  {
    var t := s[from..to];
    forall k | 0 < k < |t|
      ensures t[k - 1] != '-' || t[k] != '-'
    {
      assert s[from + k - 1] != '-' || s[from + k] != '-';
    }
    forall i, j | At(t, i, "/*") && i + 2 <= j && At(t, j, "*/")
      ensures false
    {
      AtTwo(t, i, "/*");
      AtTwo(t, j, "*/");
      AtTwo(s, from + i, "/*");
      AtTwo(s, from + j, "*/");
    }
  }

  /* ---------- validate_select_only ---------- */

  const FORBIDDEN_TOKENS: set<string> :=
    { "attach", "alter", "call", "checkpoint", "copy", "create", "delete", "detach", "drop", "export", "import",
      "insert", "install", "load", "merge", "pragma", "reset", "revoke", "grant", "set", "truncate", "update",
      "use", "vacuum" }

  const TABLE_FUNCTIONS: set<string> :=
    { "read_csv", "read_csv_auto", "read_parquet", "parquet_scan", "read_json", "read_json_auto", "read_blob",
      "glob", "sqlite_scan", "postgres_scan", "mysql_scan", "httpfs", "delta_scan", "iceberg_scan" }

  /** Which non-ASCII characters are letters or digits. */
  type AlnumTable = char -> bool

  predicate IsLetter(c: char) {
    'a' <= c <= 'z' || 'A' <= c <= 'Z'
  }

  /** A character of \w. */
  predicate IsWordChar(alnum: AlnumTable, c: char) {
    IsLetter(c) || IsDigit(c) || c == '_' || (c >= '\U{80}' && alnum(c))
  }

  /** A character of [a-zA-Z_]. */
  predicate IsTokenChar(c: char) {
    IsLetter(c) || c == '_'
  }

  /** re.IGNORECASE on a lower-case ASCII pattern character, with the four extra letters it folds. */
  predicate MatchesIgnoringCase(c: char, pattern: char) {
    || c == pattern
    || ('A' <= c <= 'Z' && c as int + 32 == pattern as int)
    || (pattern == 'i' && c in {'\U{130}', '\U{131}'})
    || (pattern == 's' && c == '\U{17F}')
    || (pattern == 'k' && c == '\U{212A}')
  }

  predicate WordAt(s: string, i: nat, word: string) {
    i + |word| <= |s| && forall k | 0 <= k < |word| :: MatchesIgnoringCase(s[i + k], word[k])
  }

  predicate StartsWithKeyword(alnum: AlnumTable, s: string, word: string) {
    WordAt(s, 0, word) && (|s| == |word| || !IsWordChar(alnum, s[|word|]))
  }

  /** The first position at or after i that is not white space. */
  function SkipSpace(s: string, i: nat): (j: nat)
    requires i <= |s|
    ensures i <= j <= |s|
    decreases |s| - i
  {
    if i < |s| && IsSpace(s[i]) then SkipSpace(s, i + 1) else i
  }

  /** A call of the named table function begins at i, on a word boundary. */
  predicate CallAt(alnum: AlnumTable, s: string, i: nat, name: string) {
    && WordAt(s, i, name)
    && (i == 0 || !IsWordChar(alnum, s[i - 1]))
    && SkipSpace(s, i + |name|) < |s| && s[SkipSpace(s, i + |name|)] == '('
  }

  predicate CallsTableFunction(alnum: AlnumTable, s: string) {
    exists i: nat, name | i < |s| && name in TABLE_FUNCTIONS :: CallAt(alnum, s, i, name)
  }

  /** From i to j there is white space only. */
  predicate OnlySpace(s: string, i: nat, j: nat) {
    i <= j <= |s| && forall k | i <= k < j :: IsSpace(s[k])
  }

  lemma {:induction false} SkipSpaceIff(s: string, i: nat, j: nat)
    requires i <= j < |s| && !IsSpace(s[j])
    ensures SkipSpace(s, i) == j <==> OnlySpace(s, i, j)
    decreases j - i
  {
    hide IsSpace;
    if i < j && IsSpace(s[i]) {
      SkipSpaceIff(s, i + 1, j);
    }
  }

  /** The bare name at i, on a word boundary, white space, and a parenthesis at j. */
  predicate CallBetween(alnum: AlnumTable, s: string, i: nat, j: nat, name: string) {
    && WordAt(s, i, name) && (i == 0 || !IsWordChar(alnum, s[i - 1]))
    && OnlySpace(s, i + |name|, j) && j < |s| && s[j] == '('
  }

  /**
   The gate is textual: it refuses a statement exactly for a function's bare name on a word
   boundary with nothing but white space before the parenthesis.
   */
  lemma TableCallIff(alnum: AlnumTable, s: string)
    ensures CallsTableFunction(alnum, s)
       <==> exists i: nat, j: nat, name | i < |s| && name in TABLE_FUNCTIONS :: CallBetween(alnum, s, i, j, name)
  {
    hide IsWordChar, IsSpace;
    if i: nat, name :| i < |s| && name in TABLE_FUNCTIONS && CallAt(alnum, s, i, name) {
      var j := SkipSpace(s, i + |name|);
      SpaceNotOpen(s[j]);
      SkipSpaceIff(s, i + |name|, j);
      assert CallBetween(alnum, s, i, j, name);
    }
    if i: nat, j: nat, name :| i < |s| && name in TABLE_FUNCTIONS && CallBetween(alnum, s, i, j, name) {
      SpaceNotOpen(s[j]);
      SkipSpaceIff(s, i + |name|, j);
      assert CallAt(alnum, s, i, name);
    }
  }

  lemma SpaceNotOpen(c: char)
    requires c == '('
    ensures !IsSpace(c)
  {
  }

  /** The end of the run of token characters that starts at i. */
  function TokenEnd(s: string, i: nat): (j: nat)
    requires i <= |s|
    ensures i <= j <= |s| && (forall k | i <= k < j :: IsTokenChar(s[k])) && (j < |s| ==> !IsTokenChar(s[j]))
    decreases |s| - i
  {
    if i < |s| && IsTokenChar(s[i]) then TokenEnd(s, i + 1) else i
  }

  /** The lower-cased tokens of s[i..], scanning left to right. */
  function TokensFrom(s: string, i: nat): set<string>
    requires i <= |s|
    decreases |s| - i
  {
    if i == |s| then {}
    else if IsTokenChar(s[i]) then {LowerAscii(s[i..TokenEnd(s, i)])} + TokensFrom(s, TokenEnd(s, i))
    else TokensFrom(s, i + 1)
  }

  function RStripSemicolons(s: string): (r: string)
    ensures r <= s && (r == "" || r[|r| - 1] != ';')
    ensures forall k | |r| <= k < |s| :: s[k] == ';'
  {
    if s != "" && s[|s| - 1] == ';' then RStripSemicolons(s[..|s| - 1]) else s
  }

  datatype Rejection =
    | EmptyStatement
    | MultipleStatements
    | NotSelect
    | TableFunction
    | ForbiddenKeywords(found: set<string>)

  function ValidateSelectOnly(alnum: AlnumTable, sql: string): Result<string, Rejection> {
    var stripped := Strip(StripComments(sql));
    if stripped == "" then Err(EmptyStatement)
    else if ';' in RStripSemicolons(stripped) then Err(MultipleStatements)
    else if !StartsWithKeyword(alnum, stripped, "select") && !StartsWithKeyword(alnum, stripped, "with")
    then Err(NotSelect)
    else if CallsTableFunction(alnum, stripped) then Err(TableFunction)
    else
      var forbidden := TokensFrom(stripped, 0) * FORBIDDEN_TOKENS;
      if forbidden != {} then Err(ForbiddenKeywords(forbidden)) else Ok(stripped)
  }

  /** s[i..j] is a maximal run of token characters. */
  predicate IsToken(s: string, i: nat, j: nat) {
    && i < j <= |s|
    && (forall k | i <= k < j :: IsTokenChar(s[k]))
    && (i == 0 || !IsTokenChar(s[i - 1])) && (j == |s| || !IsTokenChar(s[j]))
  }

  /** Scanning finds exactly the maximal runs. */
  lemma {:induction false} TokensAreMaximalRuns(s: string, from: nat, w: string)
    requires from <= |s| && (from == 0 || from == |s| || !IsTokenChar(s[from - 1]) || !IsTokenChar(s[from]))
    ensures w in TokensFrom(s, from)
       <==> exists i: nat, j: nat :: from <= i && IsToken(s, i, j) && LowerAscii(s[i..j]) == w
    decreases |s| - from
  {
    if from < |s| {
      if IsTokenChar(s[from]) {
        var end := TokenEnd(s, from);
        assert IsToken(s, from, end);
        TokensAreMaximalRuns(s, end, w);
        forall i: nat, j: nat | from <= i && IsToken(s, i, j)
          ensures (i == from && j == end) || end <= i
        {
        }
      } else {
        TokensAreMaximalRuns(s, from + 1, w);
        forall i: nat, j: nat | from <= i && IsToken(s, i, j)
          ensures from + 1 <= i
        {
        }
      }
    }
  }

  /** No semicolon stands before anything else. */
  predicate SemicolonsEnd(t: string) {
    forall k | 0 <= k < |t| && t[k] == ';' :: OnlySemicolonsFrom(t, k)
  }

  predicate OnlySemicolonsFrom(t: string, k: int) {
    forall m | 0 <= k <= m < |t| :: t[m] == ';'
  }

  /** What a statement must be to be handed to the engine. */
  ghost predicate IsGovernedSelect(alnum: AlnumTable, t: string) {
    && t != "" && Trimmed(t) && CommentFree(t)
    && SemicolonsEnd(t)
    && (StartsWithKeyword(alnum, t, "select") || StartsWithKeyword(alnum, t, "with"))
    && !CallsTableFunction(alnum, t)
    && (forall i: nat, j: nat :: IsToken(t, i, j) ==> LowerAscii(t[i..j]) !in FORBIDDEN_TOKENS)
  }

  lemma SemicolonsTrail(t: string)
    ensures ';' !in RStripSemicolons(t) <==> SemicolonsEnd(t)
  {
    var r := RStripSemicolons(t);
    assert forall k | 0 <= k < |r| :: t[k] == r[k];
    hide RStripSemicolons, OnlySemicolonsFrom;
    forall k | 0 <= k < |t| && t[k] == ';'
      ensures k < |r| <==> !OnlySemicolonsFrom(t, k)
      ensures k < |r| ==> ';' in r
    {
      InnerSemicolon(t, r, k);
      assert k < |r| ==> r[k] == ';';
    }
    if ';' in r {
      var k :| 0 <= k < |r| && r[k] == ';';
      assert t[k] == ';';
    }
  }

  /** A semicolon has something else after it exactly when stripping leaves it. */
  lemma InnerSemicolon(t: string, r: string, k: int)
    requires r <= t && (r == "" || r[|r| - 1] != ';') && (forall m | |r| <= m < |t| :: t[m] == ';')
    requires 0 <= k < |t|
    ensures k < |r| <==> !OnlySemicolonsFrom(t, k)
  {
    if k < |r| {
      assert t[|r| - 1] == r[|r| - 1];
    }
  }

  /** The words of a text, lower-cased. */
  ghost predicate HasToken(t: string, w: string) {
    exists i: nat, j: nat :: IsToken(t, i, j) && LowerAscii(t[i..j]) == w
  }

  lemma TokensAreWords(t: string, w: string)
    ensures w in TokensFrom(t, 0) <==> HasToken(t, w)
  {
    hide IsToken, TokensFrom;
    TokensAreMaximalRuns(t, 0, w);
  }

  lemma NoForbiddenTokens(t: string)
    ensures TokensFrom(t, 0) * FORBIDDEN_TOKENS == {}
       <==> forall i: nat, j: nat :: IsToken(t, i, j) ==> LowerAscii(t[i..j]) !in FORBIDDEN_TOKENS
  {
    hide TokensFrom;
    forall w ensures w in TokensFrom(t, 0) <==> HasToken(t, w) {
      TokensAreWords(t, w);
    }
    NoForbiddenWords(t, TokensFrom(t, 0), FORBIDDEN_TOKENS);
  }

  lemma NoForbiddenWords(t: string, words: set<string>, forbidden: set<string>)
    requires forall w :: w in words <==> HasToken(t, w)
    ensures words * forbidden == {}
       <==> forall i: nat, j: nat :: IsToken(t, i, j) ==> LowerAscii(t[i..j]) !in forbidden
  {
    hide LowerAscii;
    if words * forbidden == {} {
      forall i: nat, j: nat | IsToken(t, i, j)
        ensures LowerAscii(t[i..j]) !in forbidden
      {
        var w := LowerAscii(t[i..j]);
        assert HasToken(t, w);
        assert w in words * forbidden <==> w in words && w in forbidden;
      }
    } else {
      var w :| w in words * forbidden;
      var i: nat, j: nat :| IsToken(t, i, j) && LowerAscii(t[i..j]) == w;
    }
  }

  /**
   A statement is accepted exactly when what is left after stripping comments and white space
   is a governed select, and that text is what is returned.
   */
  lemma AcceptedExactly(alnum: AlnumTable, sql: string)
    ensures var t := Strip(StripComments(sql));
            ValidateSelectOnly(alnum, sql) == Ok(t) <==> IsGovernedSelect(alnum, t)
    ensures ValidateSelectOnly(alnum, sql).Ok? ==> ValidateSelectOnly(alnum, sql).value == Strip(StripComments(sql))
  {
    hide StripComments, CallsTableFunction, TokensFrom, HasClosedBlock, IsToken, SemicolonsEnd;
    var t := Strip(StripComments(sql));
    StripCommentsClears(sql);
    var from, to := StripIsTrimmed(StripComments(sql));
    SliceIsCommentFree(StripComments(sql), from, to);
    NoForbiddenTokens(t);
    KeywordIsNoSemicolon(alnum, t);
    SemicolonsTrail(t);
  }

  lemma KeywordIsNoSemicolon(alnum: AlnumTable, t: string)
    ensures t != "" && t[0] == ';' ==> !StartsWithKeyword(alnum, t, "select") && !StartsWithKeyword(alnum, t, "with")
  {
    assert "select"[0] == 's' && "with"[0] == 'w';
    if t != "" {
      assert !MatchesIgnoringCase(';', 's') && !MatchesIgnoringCase(';', 'w');
    }
  }

  /** Whatever validation returns, validating it again returns it unchanged. */
  lemma ValidationIsAFixpoint(alnum: AlnumTable, sql: string)
    requires ValidateSelectOnly(alnum, sql).Ok?
    ensures ValidateSelectOnly(alnum, ValidateSelectOnly(alnum, sql).value) == ValidateSelectOnly(alnum, sql)
  {
    hide StripComments, CallsTableFunction, TokensFrom, HasClosedBlock, StartsWithKeyword;
    var t := ValidateSelectOnly(alnum, sql).value;
    AcceptedExactly(alnum, sql);
    StripCommentsKeeps(t);
    StripKeepsTrimmed(t);
  }
}
