/**
 The text primitives of Python that the parsers and printers rely on:
 whitespace, strip, splitlines, decimal integers, and the texts int() and
 float() accept (restricted to ASCII digits).
 */
module PyText {
  import opened Outcomes

  /* ---------- whitespace ---------- */

  /** str.isspace on one character. */
  predicate IsSpace(c: char) {
    || '\t' <= c <= '\r'
    || '\U{1C}' <= c <= ' '
    || c in {'\U{85}', '\U{A0}', '\U{1680}', '\U{2028}', '\U{2029}', '\U{202F}', '\U{205F}', '\U{3000}'}
    || '\U{2000}' <= c <= '\U{200A}'
  }

  /** The characters at which str.splitlines ends a line. */
  predicate IsLineBreak(c: char) {
    || '\n' <= c <= '\r'
    || '\U{1C}' <= c <= '\U{1E}'
    || c in {'\U{85}', '\U{2028}', '\U{2029}'}
  }

  predicate IsBlank(c: char) {
    c == ' ' || c == '\t'
  }

  predicate IsQuote(c: char) {
    c == '"' || c == '\''
  }

  predicate NoBreaks(s: string) {
    forall k | 0 <= k < |s| :: !IsLineBreak(s[k])
  }

  function LStrip(s: string): string {
    if s != "" && IsSpace(s[0]) then LStrip(s[1..]) else s
  }

  function RStrip(s: string): string {
    if s != "" && IsSpace(s[|s| - 1]) then RStrip(s[..|s| - 1]) else s
  }

  function Strip(s: string): string {
    RStrip(LStrip(s))
  }

  /** A text that strip() leaves alone. */
  predicate Trimmed(s: string) {
    s == "" || (!IsSpace(s[0]) && !IsSpace(s[|s| - 1]))
  }

  lemma {:induction false} LStripEnds(s: string)
    ensures |LStrip(s)| <= |s| && LStrip(s) == s[|s| - |LStrip(s)|..]
    ensures LStrip(s) == "" || !IsSpace(LStrip(s)[0])
  {
    if s != "" && IsSpace(s[0]) {
      LStripEnds(s[1..]);
    }
  }

  lemma {:induction false} RStripEnds(s: string)
    ensures |RStrip(s)| <= |s| && RStrip(s) == s[..|RStrip(s)|]
    ensures RStrip(s) == "" || !IsSpace(RStrip(s)[|RStrip(s)| - 1])
  {
    if s != "" && IsSpace(s[|s| - 1]) {
      RStripEnds(s[..|s| - 1]);
    }
  }

  /** What strip() returns is a trimmed piece of its argument. */
  lemma StripIsTrimmed(s: string) returns (from: nat, to: nat)
    ensures from <= to <= |s| && Strip(s) == s[from..to]
    ensures Trimmed(Strip(s))
  {
    LStripEnds(s);
    RStripEnds(LStrip(s));
    from := |s| - |LStrip(s)|;
    to := from + |Strip(s)|;
  }

  predicate AllSpace(s: string) {
    forall k | 0 <= k < |s| :: IsSpace(s[k])
  }

  /** A text is what strip() returns between white space, and nothing else is taken off. */
  lemma StripParts(s: string) returns (before: string, after: string)
    ensures s == before + Strip(s) + after && AllSpace(before) && AllSpace(after) && Trimmed(Strip(s))
    ensures Strip(s) == "" <==> AllSpace(s)
  {
    var rest := LStrip(s);
    before := LStripped(s);
    after := RStripped(rest);
    LStripEnds(s);
    RStripEnds(rest);
    assert s == before + Strip(s) + after;
    if Strip(s) != "" {
      assert s[|before|] == Strip(s)[0];
    }
  }

  lemma {:induction false} LStripped(s: string) returns (before: string)
    ensures s == before + LStrip(s) && AllSpace(before)
  {
    if s != "" && IsSpace(s[0]) {
      var rest := LStripped(s[1..]);
      before := [s[0]] + rest;
    } else {
      before := "";
    }
  }

  lemma {:induction false} RStripped(s: string) returns (after: string)
    ensures s == RStrip(s) + after && AllSpace(after)
  {
    if s != "" && IsSpace(s[|s| - 1]) {
      var rest := RStripped(s[..|s| - 1]);
      after := rest + [s[|s| - 1]];
    } else {
      after := "";
    }
  }

  lemma StripKeepsTrimmed(s: string)
    requires Trimmed(s)
    ensures LStrip(s) == RStrip(s) == Strip(s) == s
  {
  }

  /** A run of n spaces. */
  function Spaces(n: nat): (s: string)
    ensures |s| == n && forall k | 0 <= k < n :: s[k] == ' '
  {
    if n == 0 then "" else " " + Spaces(n - 1)
  }

  lemma {:induction false} LStripSpaces(n: nat, s: string)
    requires s != "" && !IsSpace(s[0])
    ensures LStrip(Spaces(n) + s) == s
  {
    if n == 0 {
      assert Spaces(n) + s == s;
    } else {
      assert (Spaces(n) + s)[1..] == Spaces(n - 1) + s;
      LStripSpaces(n - 1, s);
    }
  }

  /* ---------- splitlines ---------- */

  /** The index of the first line break, or the length. */
  function BreakAt(s: string): (n: nat)
    ensures n <= |s| && NoBreaks(s[..n]) && (n < |s| ==> IsLineBreak(s[n]))
  {
    if s == "" || IsLineBreak(s[0]) then 0 else
      assert s == [s[0]] + s[1..];
      var n := 1 + BreakAt(s[1..]);
      assert s[..n] == [s[0]] + s[1..][..n - 1];
      n
  }

  /** str.splitlines: "\r\n" is one break, and a final break opens no line. */
  function SplitLines(s: string): seq<string> {
    if s == "" then [] else
      var n := BreakAt(s);
      if n == |s| then [s]
      else if s[n] == '\r' && n + 1 < |s| && s[n + 1] == '\n' then [s[..n]] + SplitLines(s[n + 2..])
      else [s[..n]] + SplitLines(s[n + 1..])
  }

  /** Lines, each ended by "\n". */
  function JoinLines(ls: seq<string>): string {
    if ls == [] then "" else ls[0] + "\n" + JoinLines(ls[1..])
  }

  lemma {:induction false} BreakAtFirst(s: string, t: string)
    requires NoBreaks(s)
    ensures BreakAt(s + "\n" + t) == |s|
  {
    var u := s + "\n" + t;
    assert IsLineBreak(u[|s|]);
    if s != "" {
      assert u[1..] == s[1..] + "\n" + t;
      BreakAtFirst(s[1..], t);
    }
  }

  lemma {:induction false} SplitJoin(ls: seq<string>)
    requires forall k | 0 <= k < |ls| :: NoBreaks(ls[k])
    ensures SplitLines(JoinLines(ls)) == ls
  {
    if ls != [] {
      var rest := JoinLines(ls[1..]);
      var text := JoinLines(ls);
      BreakAtFirst(ls[0], rest);
      assert text[..|ls[0]|] == ls[0];
      assert text[|ls[0]| + 1..] == rest;
      assert text[|ls[0]|] == '\n';
      SplitJoin(ls[1..]);
    }
  }

  /** str.join */
  function Join(sep: string, parts: seq<string>): string {
    if parts == [] then "" else if |parts| == 1 then parts[0] else parts[0] + sep + Join(sep, parts[1..])
  }

  /* ---------- decimal integers ---------- */

  predicate IsDigit(c: char) {
    '0' <= c <= '9'
  }

  function DigitChar(d: nat): (c: char)
    requires d < 10
    ensures IsDigit(c)
  {
    ('0' as int + d) as char
  }

  function DigitValue(c: char): nat
    requires IsDigit(c)
  {
    c as int - '0' as int
  }

  predicate AllDigits(s: string) {
    forall k | 0 <= k < |s| :: IsDigit(s[k])
  }

  function Digits(n: nat): (s: string)
    ensures s != "" && AllDigits(s)
  {
    if n < 10 then [DigitChar(n)] else Digits(n / 10) + [DigitChar(n % 10)]
  }

  /** str(n) for an int. */
  function IntText(n: int): string {
    if n < 0 then "-" + Digits(-n) else Digits(n)
  }

  /** Digits with single underscores between them, as int() and float() read them. */
  predicate IsDigitRun(s: string) {
    && s != "" && IsDigit(s[0]) && IsDigit(s[|s| - 1])
    && (forall k | 0 <= k < |s| :: IsDigit(s[k]) || s[k] == '_')
    && (forall k | 0 <= k < |s| - 1 :: s[k] == '_' ==> s[k + 1] != '_')
  }

  function DropUnderscores(s: string): string {
    if s == "" then "" else (if s[0] == '_' then [] else [s[0]]) + DropUnderscores(s[1..])
  }

  function NatValue(s: string): nat
    requires AllDigits(s)
  {
    if s == "" then 0 else 10 * NatValue(s[..|s| - 1]) + DigitValue(s[|s| - 1])
  }

  predicate HasSign(s: string) {
    s != "" && (s[0] == '+' || s[0] == '-')
  }

  function Unsigned(s: string): string {
    if HasSign(s) then s[1..] else s
  }

  /** The interpreter refuses to convert a longer decimal text to an int. */
  const INT_MAX_STR_DIGITS: nat := 4300

  lemma {:induction false} DropUnderscoresDigits(s: string)
    requires forall k | 0 <= k < |s| :: IsDigit(s[k]) || s[k] == '_'
    ensures AllDigits(DropUnderscores(s))
    ensures AllDigits(s) ==> DropUnderscores(s) == s
  {
    if s != "" {
      DropUnderscoresDigits(s[1..]);
    }
  }

  /** int(s) on a text; None stands for ValueError. */
  function ParseInt(s: string): Option<int> {
    var body := Unsigned(Strip(s));
    if !IsDigitRun(body) then None else
      DropUnderscoresDigits(body);
      var digits := DropUnderscores(body);
      if |digits| > INT_MAX_STR_DIGITS then None
      else
        var magnitude: int := NatValue(digits);
        Some(if Strip(s)[0] == '-' then -magnitude else magnitude)
  }

  lemma {:induction false} NatValueOfDigits(n: nat)
    ensures NatValue(Digits(n)) == n
  {
    if n < 10 {
      assert Digits(n)[..0] == "";
      assert NatValue("") == 0;
    } else {
      var s := Digits(n);
      assert s[..|s| - 1] == Digits(n / 10);
      assert s[|s| - 1] == DigitChar(n % 10);
      NatValueOfDigits(n / 10);
    }
  }

  /** int(str(n)) == n, as long as the interpreter's digit limit is respected. */
  lemma ParseIntText(n: int)
    requires |Digits(if n < 0 then -n else n)| <= INT_MAX_STR_DIGITS
    ensures ParseInt(IntText(n)) == Some(n)
  {
    var d := Digits(if n < 0 then -n else n);
    var s := IntText(n);
    assert IsDigit(s[|s| - 1]);
    StripKeepsTrimmed(s);
    assert Unsigned(s) == d;
    DropUnderscoresDigits(d);
    NatValueOfDigits(if n < 0 then -n else n);
  }

  /** Different ints have different texts. */
  lemma IntTextInjective(a: int, b: int)
    ensures IntText(a) == IntText(b) ==> a == b
  {
    NatValueOfDigits(if a < 0 then -a else a);
    NatValueOfDigits(if b < 0 then -b else b);
    var ta, tb := IntText(a), IntText(b);
    assert a < 0 ==> ta[0] == '-' && ta[1..] == Digits(-a);
    assert b < 0 ==> tb[0] == '-' && tb[1..] == Digits(-b);
  }

  /* ---------- finding a text ---------- */

  /** The text p stands at position i. */
  predicate At(s: string, i: int, p: string) {
    0 <= i && i + |p| <= |s| && s[i..i + |p|] == p
  }

  /** The first position at or after i where p stands; None if there is none. */
  function Find(s: string, p: string, i: nat): (n: Option<nat>)
    requires i <= |s|
    ensures n.Some? ==> i <= n.value && At(s, n.value, p)
    ensures n.Some? ==> forall k | i <= k < n.value :: !At(s, k, p)
    ensures n.None? ==> forall k | i <= k :: !At(s, k, p)
    decreases |s| - i
  {
    if At(s, i, p) then Some(i)
    else if i == |s| then None
    else Find(s, p, i + 1)
  }

  /* ---------- texts that float() accepts ---------- */

  function IndexOf(s: string, cs: set<char>): (n: nat)
    ensures n <= |s| && (n < |s| ==> s[n] in cs)
  {
    if s == "" || s[0] in cs then 0 else 1 + IndexOf(s[1..], cs)
  }

  function LowerAscii(s: string): (t: string)
    ensures |t| == |s|
  {
    if s == "" then "" else
      [if 'A' <= s[0] <= 'Z' then (s[0] as int + 32) as char else s[0]] + LowerAscii(s[1..])
  }

  predicate IsMantissa(m: string) {
    var dot := IndexOf(m, {'.'});
    if dot == |m| then IsDigitRun(m) else
      && (m[..dot] == "" || IsDigitRun(m[..dot]))
      && (m[dot + 1..] == "" || IsDigitRun(m[dot + 1..]))
      && |m| > 1
  }

  /** float(s) does not raise ValueError. */
  predicate IsFloatText(s: string) {
    var u := Unsigned(Strip(s));
    var e := IndexOf(u, {'e', 'E'});
    || LowerAscii(u) in {"inf", "infinity", "nan"}
    || (IsMantissa(u[..e]) && (e < |u| ==> IsDigitRun(Unsigned(u[e + 1..]))))
  }
}
