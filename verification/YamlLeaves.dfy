/**
 The ways a scalar can be written on one line, told by its characters alone, and what the line
 scanners and the scalar reader make of each.
 */
module YamlLeaves {
  import opened Outcomes
  import opened PyText
  import opened YamlScan
  import opened YamlParser
  import opened YamlDoubleQuotes

  /* ---------- numbers ---------- */

  /** Groups of digits, single underscores between them. */
  predicate AreGroups(run: string, groups: seq<string>) {
    && groups != [] && run == Join("_", groups)
    && forall k | 0 <= k < |groups| :: groups[k] != "" && AllDigits(groups[k])
  }

  ghost predicate IsRun(run: string) {
    exists groups :: AreGroups(run, groups)
  }

  predicate IsSign(sign: string) {
    sign in {"", "+", "-"}
  }

  ghost predicate IsSignedRun(s: string, sign: string, run: string) {
    s == sign + run && IsSign(sign) && IsRun(run)
  }

  ghost predicate IsIntShaped(s: string) {
    exists sign, run :: IsSignedRun(s, sign, run)
  }

  /** Digits before or after a point, or both. */
  ghost predicate IsPointed(m: string, before: string, after: string) {
    && m == before + "." + after && (before == "" || IsRun(before)) && (after == "" || IsRun(after))
    && before + after != ""
  }

  ghost predicate IsExponent(e: string, mark: string, sign: string, run: string) {
    e == mark + sign + run && mark in {"e", "E"} && IsSign(sign) && IsRun(run)
  }

  /** A sign, a name or digits with or without a point, and an exponent or none. */
  ghost predicate IsSignedFloat(s: string, sign: string, m: string, e: string) {
    && s == sign + m + e && IsSign(sign)
    && ((LowerAscii(m) in {"inf", "infinity", "nan"} && e == "")
        || ((IsRun(m) || exists before, after :: IsPointed(m, before, after))
            && (e == "" || exists mark, sign', run :: IsExponent(e, mark, sign', run))))
  }

  ghost predicate IsFloatShaped(s: string) {
    exists sign, m, e :: IsSignedFloat(s, sign, m, e)
  }

  /** What int() or float() would read. */
  ghost predicate IsNumberShaped(s: string) {
    IsIntShaped(s) || IsFloatShaped(s)
  }

  lemma {:induction false} DigitRunIsRun(s: string)
    requires IsDigitRun(s)
    ensures IsRun(s)
    decreases |s|
  {
    hide IsDigitRun, IsDigit;
    var k := IndexOf(s, {'_'});
    FirstIn(s, {'_'});
    if k == |s| {
      AllInRun(s);
      assert AreGroups(s, [s]);
    } else {
      var head, rest := s[..k], s[k + 1..];
      RunParts(s, k);
      DigitRunIsRun(rest);
      var more :| AreGroups(rest, more);
      var groups := [head] + more;
      assert groups[1..] == more;
      assert Join("_", groups) == head + "_" + rest == s;
      assert AreGroups(s, groups);
    }
  }

  lemma AllInRun(s: string)
    requires IsDigitRun(s) && forall k | 0 <= k < |s| :: s[k] !in {'_'}
    ensures s != "" && AllDigits(s)
  {
  }

  lemma RunParts(s: string, k: nat)
    requires IsDigitRun(s) && k < |s| && s[k] == '_' && forall j | 0 <= j < k :: s[j] !in {'_'}
    ensures s[..k] != "" && AllDigits(s[..k]) && IsDigitRun(s[k + 1..])
    ensures s == s[..k] + "_" + s[k + 1..]
  {
    var rest := s[k + 1..];
    assert k > 0 && k + 1 < |s|;
    assert s[k + 1] != '_' && IsDigit(s[k + 1]);
    assert rest[|rest| - 1] == s[|s| - 1];
    assert forall j | 0 <= j < |rest| :: rest[j] == s[k + 1 + j];
  }

  lemma {:induction false} FirstIn(s: string, cs: set<char>)
    ensures forall k | 0 <= k < IndexOf(s, cs) :: s[k] !in cs
  {
    if s != "" && s[0] !in cs {
      FirstIn(s[1..], cs);
    }
  }

  lemma SignParts(s: string) returns (sign: string)
    ensures s == sign + Unsigned(s) && IsSign(sign)
  {
    sign := if HasSign(s) then s[..1] else "";
    if HasSign(s) {
      assert s[..1] == [s[0]];
    }
  }

  lemma ParsedIsShaped(s: string)
    requires Trimmed(s) && (ParseInt(s).Some? || IsFloatText(s))
    ensures IsNumberShaped(s)
  {
    hide IsDigitRun, IsRun, IndexOf, IsMantissa, Unsigned, LowerAscii, IsSign;
    StripKeepsTrimmed(s);
    var sign := SignParts(s);
    var u := Unsigned(s);
    if ParseInt(s).Some? {
      DigitRunIsRun(u);
      assert IsSignedRun(s, sign, u);
    } else if LowerAscii(u) in {"inf", "infinity", "nan"} {
      assert IsSignedFloat(s, sign, u, "");
    } else {
      var n := IndexOf(u, {'e', 'E'});
      MantissaIsShaped(u[..n]);
      if n < |u| {
        ExponentIsShaped(u[n..]);
      }
      assert s == sign + u[..n] + u[n..];
      assert IsSignedFloat(s, sign, u[..n], u[n..]);
    }
  }

  lemma ExponentIsShaped(e: string)
    requires e != "" && e[0] in {'e', 'E'} && IsDigitRun(Unsigned(e[1..]))
    ensures exists mark, sign, run :: IsExponent(e, mark, sign, run)
  {
    hide IsDigitRun, IsRun, Unsigned;
    var sign := SignParts(e[1..]);
    DigitRunIsRun(Unsigned(e[1..]));
    assert e == e[..1] + e[1..] && e[..1] == [e[0]];
    assert IsExponent(e, e[..1], sign, Unsigned(e[1..]));
  }

  lemma MantissaIsShaped(m: string)
    requires IsMantissa(m)
    ensures IsRun(m) || exists before, after :: IsPointed(m, before, after)
  {
    hide IsDigitRun, IsRun;
    var dot := IndexOf(m, {'.'});
    if dot == |m| {
      DigitRunIsRun(m);
    } else {
      var before, after := m[..dot], m[dot + 1..];
      if before != "" {
        DigitRunIsRun(before);
      }
      if after != "" {
        DigitRunIsRun(after);
      }
      assert m == before + "." + after;
      assert |before + after| == |m| - 1;
      assert IsPointed(m, before, after);
    }
  }

  /* ---------- how a scalar is written ---------- */

  predicate NoQuotes(s: string) {
    forall k | 0 <= k < |s| :: !IsQuote(s[k])
  }

  /** No '#' opens a comment in the text, wherever it stands. */
  predicate NoHash(s: string) {
    forall k | 0 <= k < |s| && s[k] == '#' :: k > 0 && !IsBlank(s[k - 1])
  }

  /** No ':' parts a key in the text. */
  predicate NoColon(s: string) {
    forall k | 0 <= k < |s| && s[k] == ':' :: k + 1 < |s| && !IsBlank(s[k + 1])
  }

  predicate IsWord(s: string) {
    s in {"true", "True", "false", "False", "null", "~"}
  }

  /** A text that needs no quotation marks: it opens with none, nor with a bracket, and looks like nothing else. */
  ghost predicate IsPlainText(s: string) {
    && s != "" && Trimmed(s) && NoBreaks(s) && s[0] !in {'"', '\'', '[', '{'} && NoHash(s)
    && !IsWord(s) && !IsNumberShaped(s)
  }

  /** Single quotes doubled, as section 7.3.2 of YAML 1.2.2 escapes them. */
  function Doubled(s: string): string {
    if s == "" then "" else (if s[0] == '\'' then "''" else [s[0]]) + Doubled(s[1..])
  }

  /** A decimal with digits on both sides of its point. */
  predicate IsDecimal(text: string) {
    exists k | 0 < k < |text| - 1 ::
      text[k] == '.' && AllDigits(text[..k]) && AllDigits(text[k + 1..])
  }

  /** A text of one line without a comment that opens with a bracket: what the flow parser is given. */
  predicate IsBracketed(text: string) {
    text != "" && text[0] in {'[', '{'} && Trimmed(text) && NoBreaks(text) && NoHash(text)
  }

  /** The text is one of the ways to write the value. */
  ghost predicate Writes(flow: FlowParser, text: string, value: Value) {
    match value
    case Null => text in {"null", "~"} || IsBracketedAs(flow, text, value)
    case Bool(b) => text in (if b then {"true", "True"} else {"false", "False"}) || IsBracketedAs(flow, text, value)
    case Int(n) =>
      || (text == IntText(n) && |Digits(if n < 0 then -n else n)| <= INT_MAX_STR_DIGITS)
      || IsBracketedAs(flow, text, value)
    case Float(t) => (text == t && IsDecimal(t)) || IsBracketedAs(flow, text, value)
    case Str(s) =>
      || (text == s && IsPlainText(s))
      || (IsSingle(text, s) && NoBreaks(s))
      || (IsDouble(text, s) && !HasTrap(s) && NoBreaks(Escape(s)))
      || IsBracketedAs(flow, text, value)
    case _ => IsBracketedAs(flow, text, value)
  }

  predicate IsBracketedAs(flow: FlowParser, text: string, value: Value) {
    IsBracketed(text) && flow(text) == Ok(value)
  }

  predicate IsSingle(text: string, s: string) {
    text == "'" + Doubled(s) + "'"
  }

  predicate IsDouble(text: string, s: string) {
    text == "\"" + Escape(s) + "\""
  }

  /** A whole quoted text. */
  ghost predicate IsEnclosed(text: string) {
    (exists s :: IsSingle(text, s)) || (exists s :: IsDouble(text, s))
  }

  predicate IsQuoted(text: string) {
    text != "" && IsQuote(text[0])
  }

  /** A scalar that can stand after a key. */
  ghost predicate FitsKey(flow: FlowParser, text: string, value: Value) {
    Writes(flow, text, value) && text !in {"|", "|-", "|+", ">", ">-", ">+"}
  }

  /** A scalar that can stand after a dash: nothing in it may look like a key. */
  ghost predicate FitsDash(flow: FlowParser, text: string, value: Value) {
    Writes(flow, text, value) && (IsQuoted(text) || NoColon(text))
  }

  /* ---------- scanning for comments ---------- */

  lemma {:induction false} CommentSkipsPlain(line: string, i: nat, j: nat)
    requires i <= j <= |line|
    requires forall k | i <= k < j :: !IsQuote(line[k]) && !HashOpens(line, k)
    ensures CommentStart(line, i, None) == CommentStart(line, j, None)
    decreases j - i
  {
    if i < j {
      CommentSkipsPlain(line, i + 1, j);
    }
  }

  /** Where no '#' opens a comment there is none, whatever quotation marks do. */
  lemma {:induction false} NoHashNoComment(line: string, i: nat, quote: Option<char>)
    requires i <= |line| && forall k | i <= k < |line| :: !HashOpens(line, k)
    ensures CommentStart(line, i, quote) == |line|
    decreases |line| - i
  {
    if i < |line| {
      if i + 1 < |line| {
        NoHashNoComment(line, i + 2, quote);
      }
      NoHashNoComment(line, i + 1, None);
      NoHashNoComment(line, i + 1, quote);
      NoHashNoComment(line, i + 1, Some(line[i]));
    }
  }

  lemma {:induction false} CommentSkipsSingle(line: string, i: nat, s: string)
    requires i <= |line| && Doubled(s) + "'" <= line[i..]
    ensures CommentStart(line, i, Some('\'')) == CommentStart(line, i + |Doubled(s)| + 1, None)
    decreases |s|
  {
    var t := Doubled(s) + "'";
    assert forall k | 0 <= k < |t| :: line[i..][k] == t[k];
    if s != "" {
      var step := if s[0] == '\'' then 2 else 1;
      assert t[step..] == Doubled(s[1..]) + "'";
      assert line[i + step..] == line[i..][step..];
      assert t[step..] <= line[i..][step..];
      CommentSkipsSingle(line, i + step, s[1..]);
    }
  }

  /** An escaped character is one that needs no escape, or a backslash and one more. */
  lemma EscapeStep(s: string)
    ensures s == "" ==> Escape(s) == ""
    ensures s != "" ==>
      && Escape(s) == EscapeOne(s[0]) + Escape(s[1..])
      && var e := EscapeOne(s[0]);
         (|e| == 1 && e[0] !in {'"', '\\'}) || (|e| == 2 && e[0] == '\\')
  {
    if s != "" {
      EscapeOneIs(s[0]);
    }
    hide EscapeOne;
  }

  lemma EscapeOneIs(c: char)
    ensures var e := EscapeOne(c); (|e| == 1 && e[0] !in {'"', '\\'}) || (|e| == 2 && e[0] == '\\')
  {
  }

  lemma {:induction false} CommentSkipsDouble(line: string, i: nat, s: string)
    requires i <= |line| && Escape(s) + "\"" <= line[i..]
    ensures CommentStart(line, i, Some('"')) == CommentStart(line, i + |Escape(s)| + 1, None)
    decreases |s|
  {
    hide Escape, EscapeOne;
    EscapeStep(s);
    var t := Escape(s) + "\"";
    assert forall k | 0 <= k < |t| :: line[i..][k] == t[k];
    if s != "" {
      var step := |EscapeOne(s[0])|;
      assert t[step..] == Escape(s[1..]) + "\"";
      assert line[i + step..] == line[i..][step..];
      assert t[step..] <= line[i..][step..];
      assert t[0] == EscapeOne(s[0])[0];
      CommentSkipsDouble(line, i + step, s[1..]);
    }
  }

  lemma {:induction false} CommentSkipsBare(line: string, i: nat, n: nat, quote: char)
    requires i + n < |line| && line[i + n] == quote
    requires forall k | i <= k < i + n :: line[k] != quote && (quote == '"' ==> line[k] != '\\')
    ensures CommentStart(line, i, Some(quote)) == CommentStart(line, i + n + 1, None)
    decreases n
  {
    if n > 0 {
      CommentSkipsBare(line, i + 1, n - 1, quote);
    }
  }

  /** A text without quotation marks is passed over, wherever it stands. */
  lemma CommentSkipsText(line: string, i: nat, text: string)
    requires At(line, i, text) && NoQuotes(text) && NoHash(text)
    ensures CommentStart(line, i, None) == CommentStart(line, i + |text|, None)
  {
    forall k | i <= k < i + |text| ensures !IsQuote(line[k]) && !HashOpens(line, k) {
      assert line[i..i + |text|][k - i] == line[k] == text[k - i];
      assert k > i ==> line[i..i + |text|][k - 1 - i] == line[k - 1] == text[k - 1 - i];
    }
    CommentSkipsPlain(line, i, i + |text|);
  }

  /** So is a quoted one. */
  lemma CommentSkipsQuoted(line: string, i: nat, text: string)
    requires At(line, i, text) && IsEnclosed(text)
    ensures CommentStart(line, i, None) == CommentStart(line, i + |text|, None)
  {
    hide Doubled, Escape, CommentStart;
    assert line[i..][..|text|] == text;
    if s :| IsSingle(text, s) {
      assert text[1..] == Doubled(s) + "'" <= line[i + 1..];
      CommentSkipsSingle(line, i + 1, s);
      OpensQuote(line, i, '\'');
    } else {
      var s :| IsDouble(text, s);
      assert text[1..] == Escape(s) + "\"" <= line[i + 1..];
      CommentSkipsDouble(line, i + 1, s);
      OpensQuote(line, i, '"');
    }
  }

  lemma OpensQuote(line: string, i: nat, quote: char)
    requires i < |line| && line[i] == quote && IsQuote(quote)
    ensures CommentStart(line, i, None) == CommentStart(line, i + 1, Some(quote))
    ensures KeyColon(line, i, None) == KeyColon(line, i + 1, Some(quote))
  {
  }

  /* ---------- scanning for keys ---------- */

  lemma {:induction false} ColonSkipsPlain(content: string, i: nat, j: nat)
    requires i <= j <= |content|
    requires forall k | i <= k < j :: !IsQuote(content[k]) && !ColonSeparates(content, k)
    ensures KeyColon(content, i, None) == KeyColon(content, j, None)
    decreases j - i
  {
    if i < j {
      ColonSkipsPlain(content, i + 1, j);
    }
  }

  /** Where no ':' separates there is no key, whatever quotation marks do. */
  lemma {:induction false} NoColonNoKey(content: string, i: nat, quote: Option<char>)
    requires i <= |content| && forall k | i <= k < |content| :: !ColonSeparates(content, k)
    ensures KeyColon(content, i, quote) == None
    decreases |content| - i
  {
    if i < |content| {
      if i + 1 < |content| {
        NoColonNoKey(content, i + 2, quote);
      }
      NoColonNoKey(content, i + 1, None);
      NoColonNoKey(content, i + 1, quote);
      NoColonNoKey(content, i + 1, Some(content[i]));
    }
  }

  lemma {:induction false} ColonSkipsSingle(content: string, i: nat, s: string)
    requires i <= |content| && Doubled(s) + "'" <= content[i..]
    ensures KeyColon(content, i, Some('\'')) == KeyColon(content, i + |Doubled(s)| + 1, None)
    decreases |s|
  {
    var t := Doubled(s) + "'";
    assert forall k | 0 <= k < |t| :: content[i..][k] == t[k];
    if s != "" {
      var step := if s[0] == '\'' then 2 else 1;
      assert t[step..] == Doubled(s[1..]) + "'";
      assert content[i + step..] == content[i..][step..];
      assert t[step..] <= content[i..][step..];
      ColonSkipsSingle(content, i + step, s[1..]);
    }
  }

  lemma {:induction false} ColonSkipsDouble(content: string, i: nat, s: string)
    requires i <= |content| && Escape(s) + "\"" <= content[i..]
    ensures KeyColon(content, i, Some('"')) == KeyColon(content, i + |Escape(s)| + 1, None)
    decreases |s|
  {
    hide Escape, EscapeOne;
    EscapeStep(s);
    var t := Escape(s) + "\"";
    assert forall k | 0 <= k < |t| :: content[i..][k] == t[k];
    if s != "" {
      var step := |EscapeOne(s[0])|;
      assert t[step..] == Escape(s[1..]) + "\"";
      assert content[i + step..] == content[i..][step..];
      assert t[step..] <= content[i..][step..];
      assert t[0] == EscapeOne(s[0])[0];
      ColonSkipsDouble(content, i + step, s[1..]);
    }
  }

  lemma {:induction false} ColonSkipsBare(content: string, i: nat, n: nat, quote: char)
    requires i + n < |content| && content[i + n] == quote
    requires forall k | i <= k < i + n :: content[k] != quote && (quote == '"' ==> content[k] != '\\')
    ensures KeyColon(content, i, Some(quote)) == KeyColon(content, i + n + 1, None)
    decreases n
  {
    if n > 0 {
      ColonSkipsBare(content, i + 1, n - 1, quote);
    }
  }

  /* ---------- what each style reads as ---------- */

  /** replace("''", "'") undoes the doubling. */
  lemma {:induction false} UndoubleDoubled(s: string)
    ensures Replace(Doubled(s), "''", "'") == s
    decreases |s|
  {
    if s != "" {
      var d := Doubled(s);
      UndoubleDoubled(s[1..]);
      if s[0] == '\'' {
        assert d[2..] == Doubled(s[1..]);
      } else {
        assert d[1..] == Doubled(s[1..]);
      }
    }
  }

  lemma WordsRead()
    ensures ParseScalar("null") == Null && ParseScalar("~") == Null
    ensures ParseScalar("true") == Bool(true) && ParseScalar("True") == Bool(true)
    ensures ParseScalar("false") == Bool(false) && ParseScalar("False") == Bool(false)
  {
  }

  lemma DigitEndIsNoWord(s: string)
    requires s != "" && IsDigit(s[|s| - 1])
    ensures !IsWord(s)
  {
    assert "true"[3] == "True"[3] == "false"[4] == "False"[4] == 'e' && "null"[3] == 'l' && "~"[0] == '~';
  }

  lemma IntReads(n: int)
    requires |Digits(if n < 0 then -n else n)| <= INT_MAX_STR_DIGITS
    ensures ParseScalar(IntText(n)) == Int(n)
  {
    var t := IntText(n);
    ParseIntText(n);
    assert IsDigit(t[|t| - 1]);
    DigitEndIsNoWord(t);
  }

  lemma SingleReads(s: string)
    ensures ParseScalar("'" + Doubled(s) + "'") == Str(s)
  {
    hide Replace, Doubled;
    var t := "'" + Doubled(s) + "'";
    assert t[1..|t| - 1] == Doubled(s);
    UndoubleDoubled(s);
  }

  lemma PlainReads(s: string)
    requires IsPlainText(s)
    ensures ParseScalar(s) == Str(s)
  {
    hide ParseInt, IsFloatText, IsNumberShaped, NoHash;
    if ParseInt(s).Some? || IsFloatText(s) {
      ParsedIsShaped(s);
    }
  }

  lemma DecimalReads(t: string)
    requires IsDecimal(t)
    ensures ParseScalar(t) == Float(t)
  {
    hide IndexOf, IsMantissa;
    var k :| 0 < k < |t| - 1 && t[k] == '.' && AllDigits(t[..k]) && AllDigits(t[k + 1..]);
    assert IsDigit(t[..k][0]) && IsDigit(t[k + 1..][|t| - k - 2]);
    assert t[0] == t[..k][0] && t[|t| - 1] == t[k + 1..][|t| - k - 2];
    StripKeepsTrimmed(t);
    DigitEndIsNoWord(t);
    assert Unsigned(t) == t;
    assert ParseInt(t).None? by { assert !IsDigit(t[k]) && t[k] != '_'; }
    forall j | 0 <= j < |t| ensures IsDigit(t[j]) || t[j] == '.' {
      assert j < k ==> t[j] == t[..k][j];
      assert j > k ==> t[j] == t[k + 1..][j - k - 1];
    }
    NoneIn(t, {'e', 'E'});
    assert t[..|t|] == t;
    DecimalIsMantissa(t, k);
  }

  lemma {:induction false} NoneIn(s: string, cs: set<char>)
    requires forall k | 0 <= k < |s| :: s[k] !in cs
    ensures IndexOf(s, cs) == |s|
  {
    if s != "" {
      NoneIn(s[1..], cs);
    }
  }

  lemma DecimalIsMantissa(t: string, k: nat)
    requires 0 < k < |t| - 1 && t[k] == '.' && AllDigits(t[..k]) && AllDigits(t[k + 1..])
    ensures IsMantissa(t)
  {
    FirstIn(t, {'.'});
    var dot := IndexOf(t, {'.'});
    assert forall j | 0 <= j < k :: t[j] == t[..k][j];
    assert dot == k;
  }

  /** A text reads as what it writes. */
  lemma LeafReads(flow: FlowParser, text: string, value: Value)
    requires Writes(flow, text, value)
    ensures ParseInline(flow, text) == Ok(value)
  {
    hide IsPlainText, ParseScalar, Escape, Doubled, IsDecimal, Strip, IntText;
    LeafShape(flow, text, value);
    StripKeepsTrimmed(text);
    if !IsBracketedAs(flow, text, value) {
      match value
      case Null => WordsRead();
      case Bool(_) => WordsRead();
      case Int(n) => IntReads(n);
      case Float(t) => DecimalReads(t);
      case Str(s) =>
        if text == s && IsPlainText(s) {
          PlainReads(s);
        } else if IsSingle(text, s) {
          SingleReads(s);
        } else {
          DoubleQuotesReadBackIff(s);
        }
    }
  }

  /** What any written scalar looks like: one trimmed line, a bracket first only in flow values. */
  lemma LeafShape(flow: FlowParser, text: string, value: Value)
    requires Writes(flow, text, value)
    ensures text != "" && Trimmed(text) && NoBreaks(text)
    ensures text[0] in {'[', '{'} <==> IsBracketedAs(flow, text, value)
    ensures text[0] != '#' && (IsQuoted(text) || NoHash(text)) && (IsQuoted(text) ==> IsEnclosed(text))
  {
    hide Escape, Doubled, IsNumberShaped, IsDecimal;
    if !IsBracketedAs(flow, text, value) {
      match value
      case Null => assert text[0] in {'n', '~'};
      case Bool(_) => assert text[0] in {'t', 'T', 'f', 'F'};
      case Int(n) => IntShape(n);
      case Float(t) => DecimalShape(t);
      case Str(s) => TextShape(flow, text, s);
    }
  }

  lemma TextShape(flow: FlowParser, text: string, s: string)
    requires Writes(flow, text, Str(s)) && !IsBracketedAs(flow, text, Str(s))
    ensures text != "" && Trimmed(text) && NoBreaks(text) && text[0] !in {'[', '{', '#'}
    ensures (IsQuoted(text) || NoHash(text)) && (IsQuoted(text) ==> IsEnclosed(text))
  {
    hide Escape, Doubled, IsNumberShaped, IsDecimal;
    if IsSingle(text, s) {
      DoubledKeepsBreaks(s);
    }
  }

  lemma IntShape(n: int)
    ensures var t := IntText(n); t != "" && Trimmed(t) && NoBreaks(t) && NoHash(t) && NoQuotes(t)
    ensures IsDigit(IntText(n)[0]) || IntText(n)[0] == '-'
  {
    var t := IntText(n);
    assert forall k | 0 <= k < |t| :: IsDigit(t[k]) || t[k] == '-';
  }

  lemma DecimalShape(t: string)
    requires IsDecimal(t)
    ensures t != "" && Trimmed(t) && NoBreaks(t) && NoHash(t) && NoQuotes(t) && IsDigit(t[0])
  {
    var k :| 0 < k < |t| - 1 && t[k] == '.' && AllDigits(t[..k]) && AllDigits(t[k + 1..]);
    forall j | 0 <= j < |t| ensures IsDigit(t[j]) || t[j] == '.' {
      assert j < k ==> t[j] == t[..k][j];
      assert j > k ==> t[j] == t[k + 1..][j - k - 1];
    }
    assert t[0] == t[..k][0] && t[|t| - 1] == t[k + 1..][|t| - k - 2];
  }

  lemma {:induction false} DoubledKeepsBreaks(s: string)
    requires NoBreaks(s)
    ensures NoBreaks(Doubled(s))
  {
    if s != "" {
      DoubledKeepsBreaks(s[1..]);
    }
  }

  /** Nothing that fits after a dash is taken for a key. */
  lemma DashHasNoKey(flow: FlowParser, text: string, value: Value)
    requires FitsDash(flow, text, value)
    ensures SplitKey(text) == None
  {
    hide Writes, IsEnclosed, KeyColon, Trimmed, NoBreaks;
    LeafShape(flow, text, value);
    if NoColon(text) {
      NoColonNoKey(text, 0, None);
    } else {
      QuotedHasNoKey(text);
    }
  }

  lemma QuotedHasNoKey(text: string)
    requires IsEnclosed(text)
    ensures KeyColon(text, 0, None) == None
  {
    hide Doubled, Escape, KeyColon;
    if s :| IsSingle(text, s) {
      assert text[1..] == Doubled(s) + "'";
      OpensQuote(text, 0, '\'');
      ColonSkipsSingle(text, 1, s);
    } else {
      var s :| IsDouble(text, s);
      assert text[1..] == Escape(s) + "\"";
      OpensQuote(text, 0, '"');
      ColonSkipsDouble(text, 1, s);
    }
    NothingAfter(text);
  }

  lemma NothingAfter(text: string)
    ensures KeyColon(text, |text|, None) == None && CommentStart(text, |text|, None) == |text|
  {
  }
}
