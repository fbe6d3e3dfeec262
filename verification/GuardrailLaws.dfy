/**
 What comment stripping keeps: exactly the pieces between the comments, in order, one space for
 each comment - and what the forbidden-word check therefore sees.
 */
module GuardrailLaws {
  import opened Outcomes
  import opened PyText
  import opened Guardrails

  /** p stands at n and nowhere before. */
  ghost predicate FirstAt(s: string, n: nat, p: string) {
    At(s, n, p) && forall k | 0 <= k < n :: !At(s, k, p)
  }

  /* ---------- block comments ---------- */

  /** A block comment, from its opening to the first closing after it. */
  ghost predicate IsBlock(comment: string, inner: string) {
    comment == "/*" + inner + "*/" && FirstAt(inner + "*/", |inner|, "*/")
  }

  /** The text is a piece without an opening, a block comment, and the rest. */
  ghost predicate BlockCut(s: string, piece: string, comment: string, inner: string, rest: string) {
    && s == piece + comment + rest && IsBlock(comment, inner)
    && FirstAt(piece + "/*", |piece|, "/*")
  }

  /** The pieces of the text between its block comments. */
  ghost predicate BlockSplit(s: string, pieces: seq<string>)
    decreases |pieces|
  {
    && pieces != []
    && if |pieces| == 1 then s == pieces[0] && !HasClosedBlock(s)
       else exists comment, inner, rest ::
              BlockCut(s, pieces[0], comment, inner, rest) && BlockSplit(rest, pieces[1..])
  }

  lemma TwoInFront(a: string, p: string, b: string, k: nat)
    requires |p| == 2 && k + 2 <= |a| + 2
    ensures At(a + p + b, k, p) <==> At(a + p, k, p)
  {
    AtTwo(a + p + b, k, p);
    AtTwo(a + p, k, p);
  }

  lemma AtBehind(a: string, b: string, p: string, k: nat)
    ensures At(a + b, |a| + k, p) <==> At(b, k, p)
  {
    AtShift(a + b, k, p, |a|);
    assert (a + b)[|a|..] == b;
  }

  lemma CutIsFound(s: string, piece: string, comment: string, inner: string, rest: string)
    requires BlockCut(s, piece, comment, inner, rest)
    ensures FindBlock(s) == Some((|piece|, |piece| + |comment|))
    ensures s[..|piece|] == piece && s[|piece| + |comment|..] == rest
  {
    hide At, Find;
    var close := inner + "*/" + rest;
    assert s == piece + "/*" + close;
    forall k: nat | k <= |piece| ensures At(s, k, "/*") <==> k == |piece| {
      TwoInFront(piece, "/*", close, k);
    }
    assert At(s, |piece|, "/*");
    assert Find(s, "/*", 0) == Some(|piece|);
    var from := |piece| + 2;
    forall k: nat | from <= k <= from + |inner| ensures At(s, k, "*/") <==> k == from + |inner| {
      TwoInFront(inner, "*/", rest, k - from);
      assert s == (piece + "/*") + close;
      AtBehind(piece + "/*", close, "*/", k - from);
    }
    assert At(s, from + |inner|, "*/");
    assert Find(s, "*/", from) == Some(from + |inner|);
  }

  /** What stripping block comments gives: the pieces, a space between them. */
  lemma {:induction false} BlocksAre(s: string, pieces: seq<string>)
    requires BlockSplit(s, pieces)
    ensures StripBlocks(s) == Join(" ", pieces)
    decreases |pieces|
  {
    hide FindBlock, BlockCut;
    if |pieces| == 1 {
      StripBlocksKeeps(s);
    } else {
      var comment, inner, rest :|
        BlockCut(s, pieces[0], comment, inner, rest) && BlockSplit(rest, pieces[1..]);
      CutIsFound(s, pieces[0], comment, inner, rest);
      BlocksAre(rest, pieces[1..]);
    }
  }

  /** Every text has such pieces. */
  lemma {:induction false} BlocksSplit(s: string) returns (pieces: seq<string>)
    ensures BlockSplit(s, pieces)
    decreases |s|
  {
    hide At, FindBlock;
    var m := FindBlock(s);
    if m.None? {
      pieces := [s];
    } else {
      var (from, to) := m.value;
      var piece, comment, inner, rest := s[..from], s[from..to], s[from + 2..to - 2], s[to..];
      FoundIsCut(s, from, to);
      var more := BlocksSplit(rest);
      pieces := [piece] + more;
      assert pieces[0] == piece && pieces[1..] == more && |pieces| > 1;
      assert BlockCut(s, pieces[0], comment, inner, rest) && BlockSplit(rest, pieces[1..]);
    }
  }

  lemma FoundIsCut(s: string, from: nat, to: nat)
    requires FindBlock(s) == Some((from, to))
    ensures from + 4 <= to <= |s| && BlockCut(s, s[..from], s[from..to], s[from + 2..to - 2], s[to..])
  {
    hide Find;
    var piece, comment, inner, rest := s[..from], s[from..to], s[from + 2..to - 2], s[to..];
    AtTwo(s, from, "/*");
    AtTwo(s, to - 2, "*/");
    assert comment == "/*" + inner + "*/";
    assert s == piece + comment + rest;
    forall k: nat | k <= from ensures At(piece + "/*", k, "/*") <==> k == from {
      AtTwo(piece + "/*", k, "/*");
      AtTwo(s, k, "/*");
    }
    var found := Find(s, "*/", from + 2);
    assert found == Some(to - 2);
    forall k: nat | k <= |inner| ensures At(inner + "*/", k, "*/") <==> k == |inner| {
      AtTwo(inner + "*/", k, "*/");
      AtTwo(s, from + 2 + k, "*/");
    }
  }

  /* ---------- line comments ---------- */

  /** The text is a piece without "--", a comment to the end of its line, and the rest. */
  ghost predicate LineCut(s: string, piece: string, comment: string, rest: string) {
    && s == piece + "--" + comment + rest && FirstAt(piece + "--", |piece|, "--")
    && '\n' !in comment && (rest == "" || rest[0] == '\n')
  }

  /** The pieces of the text between its line comments. */
  ghost predicate LineSplit(s: string, pieces: seq<string>)
    decreases |pieces|
  {
    && pieces != []
    && if |pieces| == 1 then s == pieces[0] && !(exists k: nat :: At(s, k, "--"))
       else exists comment, rest :: LineCut(s, pieces[0], comment, rest) && LineSplit(rest, pieces[1..])
  }

  lemma NoDashesIff(s: string)
    ensures NoDashes(s) <==> !(exists k: nat :: At(s, k, "--"))
  {
    forall k: nat ensures At(s, k, "--") <==> k + 1 < |s| && s[k] == '-' && s[k + 1] == '-' {
      AtTwo(s, k, "--");
    }
    if !NoDashes(s) {
      var k: nat :| 0 < k < |s| && s[k - 1] == '-' && s[k] == '-';
      var n: nat := k - 1;
      assert At(s, n, "--");
    }
    if k: nat :| At(s, k, "--") {
      assert s[(k + 1) - 1] == '-' && s[k + 1] == '-';
    }
  }

  lemma {:induction false} LineLengthIs(s: string, n: nat)
    requires n <= |s| && '\n' !in s[..n] && (n < |s| ==> s[n] == '\n')
    ensures LineLength(s) == n
  {
    var m := LineLength(s);
    assert forall k | 0 <= k < n :: s[..n][k] == s[k];
    assert forall k | 0 <= k < m :: s[..m][k] == s[k];
  }

  lemma {:induction false} LineIsCut(s: string, piece: string, comment: string, rest: string)
    requires LineCut(s, piece, comment, rest)
    ensures StripLines(s) == piece + " " + StripLines(rest)
    decreases |piece|
  {
    hide At, LineLength;
    if piece == "" {
      assert s[..2] == "--" && "--" <= s;
      var n := 2 + |comment|;
      assert s[..n] == "--" + comment && s[n..] == rest;
      LineLengthIs(s, n);
      assert "" + " " + StripLines(rest) == " " + StripLines(rest);
    } else {
      TwoInFront(piece, "--", comment + rest, 0);
      assert s == piece + "--" + (comment + rest);
      assert !At(s, 0, "--");
      StartsAt(s);
      var short := piece[1..];
      assert s[1..] == short + "--" + comment + rest;
      forall k: nat | k <= |short| ensures At(short + "--", k, "--") <==> k == |short| {
        assert short + "--" == (piece + "--")[1..];
        AtShift(piece + "--", k, "--", 1);
      }
      LineIsCut(s[1..], short, comment, rest);
      assert [s[0]] + (short + " " + StripLines(rest)) == piece + " " + StripLines(rest);
    }
  }

  lemma StartsAt(s: string)
    ensures "--" <= s <==> At(s, 0, "--")
  {
    AtTwo(s, 0, "--");
  }

  lemma {:induction false} LinesAre(s: string, pieces: seq<string>)
    requires LineSplit(s, pieces)
    ensures StripLines(s) == Join(" ", pieces)
    decreases |pieces|
  {
    hide LineCut, At;
    if |pieces| == 1 {
      NoDashesIff(s);
      StripLinesKeeps(s);
    } else {
      var comment, rest :| LineCut(s, pieces[0], comment, rest) && LineSplit(rest, pieces[1..]);
      LineIsCut(s, pieces[0], comment, rest);
      LinesAre(rest, pieces[1..]);
    }
  }

  lemma {:induction false} LinesSplit(s: string) returns (pieces: seq<string>)
    ensures LineSplit(s, pieces)
    decreases |s|
  {
    hide Find;
    var open := Find(s, "--", 0);
    if open.None? {
      pieces := [s];
      assert !(exists k: nat :: At(s, k, "--"));
    } else {
      var piece, line := s[..open.value], s[open.value..];
      var n := LineLength(line);
      DashesOpen(s, open.value, n);
      var more := LinesSplit(line[n..]);
      pieces := [piece] + more;
      assert pieces[0] == piece && pieces[1..] == more && |pieces| > 1;
      assert LineCut(s, pieces[0], line[2..n], line[n..]) && LineSplit(line[n..], pieces[1..]);
    }
  }

  lemma DashesOpen(s: string, from: nat, n: nat)
    requires FirstAt(s, from, "--") && from <= |s| && n == LineLength(s[from..])
    ensures 2 <= n && LineCut(s, s[..from], s[from..][2..n], s[from..][n..])
  {
    var piece, line := s[..from], s[from..];
    AtTwo(s, from, "--");
    assert line[0] == '-' && line[1] == '-';
    assert n >= 2;
    assert line[..n] == "--" + line[2..n];
    assert s == piece + "--" + line[2..n] + line[n..];
    forall k: nat | k <= from ensures At(piece + "--", k, "--") <==> k == from {
      AtTwo(piece + "--", k, "--");
      AtTwo(s, k, "--");
    }
    assert forall c | c in line[2..n] :: c in line[..n];
  }

  /* ---------- both ---------- */

  /**
   What stands outside comments is kept, in order: the pieces between the block comments, a space
   between them, and of that text the pieces between the line comments, a space between them.
   */
  lemma KeptExactly(sql: string, t: string)
    ensures StripComments(sql) == t
       <==> exists pieces, lines ::
              BlockSplit(sql, pieces) && LineSplit(Join(" ", pieces), lines) && t == Join(" ", lines)
  {
    hide BlockSplit, LineSplit, StripBlocks, StripLines;
    var pieces := BlocksSplit(sql);
    var lines := LinesSplit(Join(" ", pieces));
    BlocksAre(sql, pieces);
    LinesAre(Join(" ", pieces), lines);
    forall ps, ls | BlockSplit(sql, ps) && LineSplit(Join(" ", ps), ls) ensures StripComments(sql) == Join(" ", ls) {
      BlocksAre(sql, ps);
      LinesAre(Join(" ", ps), ls);
    }
  }

  /** In particular a note at the end of a line goes, and the lines after it stay. */
  lemma NoteGoes(a: string, note: string, b: string)
    requires !(exists k: nat :: At(a, k, "--")) && (a == "" || a[|a| - 1] != '-')
    requires !(exists k: nat :: At(a, k, "/*")) && !(exists k: nat :: At(note, k, "/*")) && '\n' !in note
    ensures StripComments(a + "--" + note + "\n" + b) == a + " \n" + StripComments(b)
  {
    hide At, StripBlocks, StripLines;
    var head, sql := a + "--" + note + "\n", a + "--" + note + "\n" + b;
    assert sql == head + b;
    forall k: nat | k < |head| ensures !At(sql, k, "/*") {
      AtTwo(sql, k, "/*");
      AtTwo(a, k, "/*");
      AtTwo(note, k - |a| - 2, "/*");
      if |a| + 2 <= k < |head| - 2 {
        assert sql[k] == note[k - |a| - 2] && sql[k + 1] == note[k - |a| - 1];
      }
    }
    BlocksSkip(head, b);
    var rest := "\n" + StripBlocks(b);
    assert head + StripBlocks(b) == a + "--" + note + rest;
    forall k: nat | k <= |a| ensures At(a + "--", k, "--") <==> k == |a| {
      AtTwo(a + "--", k, "--");
      AtTwo(a, k, "--");
    }
    LineIsCut(head + StripBlocks(b), a, note, rest);
    NewlineStays(StripBlocks(b));
    assert a + " " + ("\n" + StripLines(StripBlocks(b))) == a + " \n" + StripComments(b);
  }

  lemma NewlineStays(s: string)
    ensures StripLines("\n" + s) == "\n" + StripLines(s)
  {
    assert ("\n" + s)[1..] == s;
    assert ("\n" + s)[0] == '\n' && "--"[0] == '-';
  }

  /** Text in which no block comment opens is passed over. */
  lemma {:induction false} BlocksSkip(head: string, b: string)
    requires forall k: nat | k < |head| :: !At(head + b, k, "/*")
    ensures StripBlocks(head + b) == head + StripBlocks(b)
  {
    hide At, BlockSplit, BlockCut, StripBlocks;
    var pieces := BlocksSplit(b);
    BlocksAre(b, pieces);
    SplitSkips(head, b, pieces);
    var longer := [head + pieces[0]] + pieces[1..];
    BlocksAre(head + b, longer);
    JoinLonger(head, pieces);
  }

  lemma JoinLonger(head: string, pieces: seq<string>)
    requires pieces != []
    ensures Join(" ", [head + pieces[0]] + pieces[1..]) == head + Join(" ", pieces)
  {
    hide Join;
    var first, rest := pieces[0], pieces[1..];
    JoinStarts(head + first, rest);
    JoinStarts(first, rest);
    assert pieces == [first] + rest;
    var tail := if rest == [] then "" else " " + Join(" ", rest);
    assert (head + first) + tail == head + (first + tail);
  }

  lemma JoinStarts(first: string, rest: seq<string>)
    ensures Join(" ", [first] + rest) == first + if rest == [] then "" else " " + Join(" ", rest)
  {
    assert ([first] + rest)[1..] == rest;
    if rest != [] {
      assert first + " " + Join(" ", rest) == first + (" " + Join(" ", rest));
    }
  }

  lemma SplitSkips(head: string, b: string, pieces: seq<string>)
    requires BlockSplit(b, pieces) && forall k: nat | k < |head| :: !At(head + b, k, "/*")
    ensures pieces != [] && BlockSplit(head + b, [head + pieces[0]] + pieces[1..])
  {
    hide At, HasClosedBlock, IsBlock;
    var s, longer := head + b, [head + pieces[0]] + pieces[1..];
    if |pieces| == 1 {
      NoBlockInFront(head, b);
      assert longer == [head + b];
      assert BlockSplit(s, longer);
    } else {
      var comment, inner, rest :| BlockCut(b, pieces[0], comment, inner, rest) && BlockSplit(rest, pieces[1..]);
      assert longer[1..] == pieces[1..];
      var piece := head + pieces[0];
      assert s == piece + comment + rest;
      BlockOpens(comment, inner);
      forall k: nat | k <= |piece| ensures At(piece + "/*", k, "/*") <==> k == |piece| {
        if k < |head| {
          TwoInFront(piece, "/*", comment[2..] + rest, k);
          assert s == piece + "/*" + (comment[2..] + rest);
        } else {
          AtBehind(head, pieces[0] + "/*", "/*", k - |head|);
          assert head + (pieces[0] + "/*") == piece + "/*";
        }
      }
      assert BlockCut(s, longer[0], comment, inner, rest) && BlockSplit(rest, longer[1..]);
      assert |longer| == |pieces|;
    }
  }

  lemma BlockOpens(comment: string, inner: string)
    requires IsBlock(comment, inner)
    ensures |comment| >= 4 && comment == "/*" + comment[2..]
  {
  }

  lemma NoBlockInFront(head: string, b: string)
    requires !HasClosedBlock(b) && forall k: nat | k < |head| :: !At(head + b, k, "/*")
    ensures !HasClosedBlock(head + b)
  {
    if HasClosedBlock(head + b) {
      var i, j :| At(head + b, i, "/*") && i + 2 <= j && At(head + b, j, "*/");
      assert i >= |head|;
      AtBehind(head, b, "/*", i - |head|);
      AtBehind(head, b, "*/", j - |head|);
      assert HasClosedBlock(b);
    }
  }

  /* ---------- what the forbidden-word check sees ---------- */

  /** The word is one of the pieces' words. */
  ghost predicate IsKeptWord(pieces: seq<string>, w: string) {
    exists k | 0 <= k < |pieces| :: HasToken(pieces[k], w)
  }

  lemma Middle(before: string, t: string, after: string, i: nat, j: nat)
    requires i <= j <= |t|
    ensures (before + t + after)[|before| + i..|before| + j] == t[i..j]
  {
    var s, n := before + t + after, |before|;
    assert s[n..n + |t|] == t;
    assert s[n + i..n + j] == s[n..n + |t|][i..j];
  }

  lemma TokenMoves(before: string, t: string, after: string, i: nat, j: nat)
    requires IsToken(t, i, j)
    requires before == "" || !IsTokenChar(before[|before| - 1])
    requires after == "" || !IsTokenChar(after[0])
    ensures
      var n, s := |before|, before + t + after;
      IsToken(s, n + i, n + j) && s[n + i..n + j] == t[i..j]
  {
    hide IsTokenChar;
    var s, n := before + t + after, |before|;
    Middle(before, t, after, i, j);
    forall k | n + i <= k < n + j ensures IsTokenChar(s[k]) {
      assert s[k] == t[k - n];
    }
    assert n + i > 0 ==> s[n + i - 1] == (if i > 0 then t[i - 1] else before[n - 1]);
    assert n + j < |s| ==> s[n + j] == (if j < |t| then t[j] else after[0]);
  }

  lemma TokenIsSeen(before: string, t: string, after: string, w: string)
    requires HasToken(t, w)
    requires before == "" || !IsTokenChar(before[|before| - 1])
    requires after == "" || !IsTokenChar(after[0])
    ensures HasToken(before + t + after, w)
  {
    hide LowerAscii, IsTokenChar;
    var i: nat, j: nat :| IsToken(t, i, j) && LowerAscii(t[i..j]) == w;
    TokenMoves(before, t, after, i, j);
  }

  lemma {:induction false} PieceIsSeen(pieces: seq<string>, k: nat, w: string)
    requires k < |pieces| && HasToken(pieces[k], w)
    ensures HasToken(Join(" ", pieces), w)
    decreases |pieces|
  {
    hide HasToken;
    if |pieces| > 1 {
      var rest := Join(" ", pieces[1..]);
      if k == 0 {
        TokenIsSeen("", pieces[0], " " + rest, w);
        assert "" + pieces[0] + (" " + rest) == Join(" ", pieces);
      } else {
        PieceIsSeen(pieces[1..], k - 1, w);
        TokenIsSeen(pieces[0] + " ", rest, "", w);
        assert pieces[0] + " " + rest + "" == Join(" ", pieces);
      }
    }
  }

  /** A forbidden word outside comments stops the statement, whatever else it holds. */
  lemma KeptWordStops(alnum: AlnumTable, sql: string, pieces: seq<string>, lines: seq<string>, w: string)
    requires BlockSplit(sql, pieces) && LineSplit(Join(" ", pieces), lines)
    requires IsKeptWord(lines, w) && w in FORBIDDEN_TOKENS
    ensures ValidateSelectOnly(alnum, sql).Err?
  {
    hide BlockSplit, LineSplit, HasToken, StripComments, TokensFrom;
    KeptExactly(sql, Join(" ", lines));
    var k :| 0 <= k < |lines| && HasToken(lines[k], w);
    PieceIsSeen(lines, k, w);
    var s := StripComments(sql);
    var before, after := StripParts(s);
    TrimmedToken(before, Strip(s), after, w);
    TokensAreWords(Strip(s), w);
    assert w in TokensFrom(Strip(s), 0) * FORBIDDEN_TOKENS;
  }

  /** Trimming white space takes no word away. */
  lemma TrimmedToken(before: string, t: string, after: string, w: string)
    requires AllSpace(before) && AllSpace(after) && HasToken(before + t + after, w)
    ensures HasToken(t, w)
  {
    hide LowerAscii, IsTokenChar, AllSpace;
    var s, n := before + t + after, |before|;
    var i, j := TokenOf(s, w);
    LetterIsInside(before, t, after, i);
    LetterIsInside(before, t, after, j - 1);
    assert forall k | 0 <= k < |t| :: t[k] == s[n + k];
    assert t[i - n..j - n] == s[i..j];
    assert IsToken(t, i - n, j - n);
  }

  lemma TokenOf(s: string, w: string) returns (i: nat, j: nat)
    requires HasToken(s, w)
    ensures IsToken(s, i, j) && LowerAscii(s[i..j]) == w
  {
    hide LowerAscii, IsTokenChar;
    i, j :| IsToken(s, i, j) && LowerAscii(s[i..j]) == w;
  }

  lemma LetterIsInside(before: string, t: string, after: string, k: nat)
    requires AllSpace(before) && AllSpace(after)
    requires k < |before + t + after| && IsTokenChar((before + t + after)[k])
    ensures |before| <= k < |before| + |t|
  {
    hide IsSpace, IsTokenChar;
    var s, n := before + t + after, |before|;
    assert s[k] == if k < n then before[k] else if k < n + |t| then t[k - n] else after[k - n - |t|];
    LetterIsNoSpace(s[k]);
  }

  lemma LetterIsNoSpace(c: char)
    requires IsTokenChar(c)
    ensures !IsSpace(c)
  {
  }

  /* ---------- why a statement is refused ---------- */

  /** The statement opens with the word, in any case, and the word ends there. */
  lemma OpensIff(alnum: AlnumTable, first: string, rest: string, word: string)
    requires |first| == |word| && forall k | 0 <= k < |word| :: 'a' <= word[k] <= 'z' && first[k] < '\U{80}'
    ensures StartsWithKeyword(alnum, first + rest, word)
       <==> LowerAscii(first) == word && (rest == "" || !IsWordChar(alnum, rest[0]))
  {
    hide IsWordChar;
    var s := first + rest;
    assert forall k | 0 <= k < |first| :: s[k] == first[k];
    assert rest != "" ==> s[|word|] == rest[0];
    LowerIsWord(first, word);
  }

  lemma {:induction false} LowerIsWord(first: string, word: string)
    requires |first| == |word| && forall k | 0 <= k < |word| :: 'a' <= word[k] <= 'z' && first[k] < '\U{80}'
    ensures LowerAscii(first) == word <==> forall k | 0 <= k < |word| :: MatchesIgnoringCase(first[k], word[k])
  {
    if word != "" {
      var f, w := first[1..], word[1..];
      LowerIsWord(f, w);
      LowerStarts(first);
      LowerMatches(first[0], word[0]);
      hide LowerAscii, MatchesIgnoringCase;
      assert word == [word[0]] + w && first == [first[0]] + f;
      assert forall k | 0 <= k < |w| :: f[k] == first[k + 1] && w[k] == word[k + 1];
      assert forall k | 1 <= k < |word| :: first[k] == f[k - 1] && word[k] == w[k - 1];
      assert LowerAscii(first) == word <==> LowerAscii([first[0]]) == [word[0]] && LowerAscii(f) == w;
    }
  }

  lemma LowerStarts(s: string)
    requires s != ""
    ensures |LowerAscii([s[0]])| == 1 && LowerAscii(s) == LowerAscii([s[0]]) + LowerAscii(s[1..])
  {
    assert [s[0]][1..] == "";
  }

  lemma LowerMatches(c: char, w: char)
    requires 'a' <= w <= 'z' && c < '\U{80}'
    ensures LowerAscii([c]) == [w] <==> MatchesIgnoringCase(c, w)
  {
    assert [c][1..] == "" && LowerAscii("") == "";
    var lower := if 'A' <= c <= 'Z' then (c as int + 32) as char else c;
    assert LowerAscii([c]) == [lower];
    assert [lower] == [w] <==> lower == w by {
      assert [lower][0] == lower && [w][0] == w;
    }
    hide LowerAscii;
  }

  /** The first reason that holds; the words named are all the forbidden ones outside comments. */
  lemma RefusedAs(alnum: AlnumTable, sql: string)
    ensures
      var t, r := Strip(StripComments(sql)), ValidateSelectOnly(alnum, sql);
      if AllSpace(StripComments(sql)) then r == Err(EmptyStatement)
      else if !SemicolonsEnd(t) then r == Err(MultipleStatements)
      else if !StartsWithKeyword(alnum, t, "select") && !StartsWithKeyword(alnum, t, "with") then r == Err(NotSelect)
      else if CallsTableFunction(alnum, t) then r == Err(TableFunction)
      else if exists w :: w in FORBIDDEN_TOKENS && HasToken(t, w) then
        r.Err? && r.error.ForbiddenKeywords?
        && forall w :: w in r.error.found <==> w in FORBIDDEN_TOKENS && HasToken(t, w)
      else r == Ok(t)
  {
    hide StripComments, StartsWithKeyword, CallsTableFunction, TokensFrom, HasToken, SemicolonsEnd;
    var _, _ := StripParts(StripComments(sql));
    var t := Strip(StripComments(sql));
    SemicolonsTrail(t);
    forall w ensures w in TokensFrom(t, 0) <==> HasToken(t, w) {
      TokensAreWords(t, w);
    }
    assert forall w :: w in TokensFrom(t, 0) * FORBIDDEN_TOKENS <==> w in FORBIDDEN_TOKENS && HasToken(t, w);
  }
}
