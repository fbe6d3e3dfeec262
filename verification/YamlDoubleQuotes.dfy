/**
 Double-quoted scalars: the parser undoes escapes with four whole-text replacements in a row, and
 that inverts escaping exactly on the texts in which no backslash is followed by 'n' or 't'.
 */
module YamlDoubleQuotes {
  import opened PyText
  import opened YamlParser

  /** The escapes the parser knows (YAML 1.2.2, section 5.7): backslash, quote, newline and tab. */
  function EscapeOne(c: char): string {
    if c == '\\' then "\\\\" else if c == '"' then "\\\""
    else if c == '\n' then "\\n" else if c == '\t' then "\\t" else [c]
  }

  function Escape(s: string): string {
    if s == "" then "" else EscapeOne(s[0]) + Escape(s[1..])
  }

  /** What an escaped text has become after the first k replacements. */
  function Stage(k: nat, s: string): string
    decreases |s|
  {
    if s == "" then ""
    else if k >= 2 && |s| > 1 && s[0] == '\\' && s[1] == 'n' then "\\\n" + Stage(k, s[2..])
    else if k >= 3 && |s| > 1 && s[0] == '\\' && s[1] == 't' then "\\\t" + Stage(k, s[2..])
    else StageChar(k, s[0]) + Stage(k, s[1..])
  }

  function StageChar(k: nat, c: char): string {
    if c == '\\' then if k < 4 then "\\\\" else "\\"
    else if c == '"' then if k < 1 then "\\\"" else "\""
    else if c == '\n' then if k < 2 then "\\n" else "\n"
    else if c == '\t' then if k < 3 then "\\t" else "\t"
    else [c]
  }

  /** A backslash directly before 'n' or 't'. */
  predicate HasTrap(s: string) {
    exists i :: 0 <= i < |s| - 1 && s[i] == '\\' && IsTrapLetter(s[i + 1])
  }

  predicate IsTrapLetter(c: char) {
    c == 'n' || c == 't'
  }

  function Sought(k: nat): string
    requires 1 <= k <= 4
    ensures |Sought(k)| == 2 && Sought(k)[0] == '\\'
  {
    if k == 1 then "\\\"" else if k == 2 then "\\n" else if k == 3 then "\\t" else "\\\\"
  }

  function Into(k: nat): string
    requires 1 <= k <= 4
  {
    if k == 1 then "\"" else if k == 2 then "\n" else if k == 3 then "\t" else "\\"
  }

  lemma ReplaceHit(s: string, from: string, into: string)
    requires |from| == 2
    ensures Replace(from + s, from, into) == into + Replace(s, from, into)
  {
    assert (from + s)[2..] == s;
  }

  /** A character that cannot start a match is copied. */
  lemma ReplaceMiss(c: char, s: string, from: string, into: string)
    requires |from| == 2 && (c != from[0] || s == "" || s[0] != from[1])
    ensures Replace([c] + s, from, into) == [c] + Replace(s, from, into)
  {
    assert ([c] + s)[1..] == s;
  }

  lemma StageTail(k: nat, s: string)
    requires s != "" && s[0] != '\\'
    ensures Stage(k, s) == StageChar(k, s[0]) + Stage(k, s[1..])
  {
  }

  /** The first character a stage shows for a text. */
  lemma StageStarts(k: nat, s: string)
    ensures s == "" ==> Stage(k, s) == ""
    ensures s != "" ==> Stage(k, s) != "" && Stage(k, s)[0] == StageChar(k, s[0])[0]
  {
  }

  lemma {:induction false} StageZero(s: string)
    ensures Stage(0, s) == Escape(s)
  {
    if s != "" {
      StageZero(s[1..]);
    }
  }

  /** One character from a stage to the next. */
  lemma CharStages(k: nat, c: char)
    requires 1 <= k <= 4 && c != '\\'
    ensures var shown := StageChar(k - 1, c);
      && 1 <= |shown| <= 2
      && StageChar(k, c) == (if shown == Sought(k) then Into(k) else shown)
      && (|shown| == 1 ==> shown[0] != '\\')
      && (|shown| == 2 ==> shown[1] != '\\' && (shown[1] == Sought(k)[1] ==> shown == Sought(k)))
  {
  }

  lemma ReplaceNothing(from: string, into: string)
    requires from != ""
    ensures Replace("", from, into) == ""
  {
  }

  /** Each replacement takes one stage to the next. */
  lemma {:induction false} NextStage(k: nat, s: string)
    requires 1 <= k <= 4
    ensures Replace(Stage(k - 1, s), Sought(k), Into(k)) == Stage(k, s)
    decreases |s|
  {
    hide Replace, Stage, StageChar, Sought, Into;
    if s == "" {
      StageStarts(k - 1, s);
      StageStarts(k, s);
      ReplaceNothing(Sought(k), Into(k));
    } else if s[0] != '\\' {
      NextStage(k, s[1..]);
      PlainStage(k, s);
    } else if |s| > 1 && IsCollapsed(k, s[1]) {
      NextStage(k, s[2..]);
      CollapsedStage(k, s);
    } else {
      NextStage(k, s[1..]);
      PairStage(k, s);
    }
  }

  lemma PlainStage(k: nat, s: string)
    requires 1 <= k <= 4 && s != "" && s[0] != '\\'
    requires Replace(Stage(k - 1, s[1..]), Sought(k), Into(k)) == Stage(k, s[1..])
    ensures Replace(Stage(k - 1, s), Sought(k), Into(k)) == Stage(k, s)
  {
    hide Replace, Stage, StageChar, Sought, Into;
    var rest, shown := Stage(k - 1, s[1..]), StageChar(k - 1, s[0]);
    StageTail(k - 1, s);
    StageTail(k, s);
    CharStages(k, s[0]);
    if shown == Sought(k) {
      ReplaceHit(rest, Sought(k), Into(k));
    } else if |shown| == 1 {
      assert shown == [shown[0]];
      ReplaceMiss(shown[0], rest, Sought(k), Into(k));
    } else {
      assert shown + rest == [shown[0]] + ([shown[1]] + rest);
      ReplaceMiss(shown[0], [shown[1]] + rest, Sought(k), Into(k));
      ReplaceMiss(shown[1], rest, Sought(k), Into(k));
    }
  }

  /** After a backslash: the letter that replacement k, or an earlier one, has taken for an escape. */
  predicate IsCollapsed(k: nat, c: char) {
    (k >= 2 && c == 'n') || (k >= 3 && c == 't')
  }

  function Taken(c: char): char {
    if c == 'n' then '\n' else '\t'
  }

  lemma StageTakes(k: nat, s: string)
    requires |s| > 1 && s[0] == '\\' && IsCollapsed(k, s[1])
    ensures Stage(k, s) == ['\\', Taken(s[1])] + Stage(k, s[2..])
  {
  }

  lemma StageCollapsed(k: nat, s: string)
    requires |s| > 1 && s[0] == '\\' && IsCollapsed(k, s[1])
    ensures Stage(k, s) == ['\\'] + ([Taken(s[1])] + Stage(k, s[2..]))
  {
    hide Stage;
    var rest := Stage(k, s[2..]);
    StageTakes(k, s);
    assert ['\\'] + ([Taken(s[1])] + rest) == ['\\', Taken(s[1])] + rest;
  }

  lemma StagePair(k: nat, s: string)
    requires s != "" && s[0] == '\\' && (|s| > 1 ==> !IsCollapsed(k, s[1]))
    ensures Stage(k, s) == (if k < 4 then "\\\\" else "\\") + Stage(k, s[1..])
  {
  }

  lemma StageLetter(k: nat, s: string)
    requires s != "" && IsTrapLetter(s[0])
    ensures Stage(k, s) == [s[0]] + Stage(k, s[1..])
  {
  }

  lemma CollapsedStage(k: nat, s: string)
    requires 1 <= k <= 4 && |s| > 1 && s[0] == '\\' && IsCollapsed(k, s[1])
    requires Replace(Stage(k - 1, s[2..]), Sought(k), Into(k)) == Stage(k, s[2..])
    ensures Replace(Stage(k - 1, s), Sought(k), Into(k)) == Stage(k, s)
  {
    hide Replace, Stage;
    var rest := Stage(k - 1, s[2..]);
    StageCollapsed(k, s);
    if IsCollapsed(k - 1, s[1]) {
      StageCollapsed(k - 1, s);
      ReplaceMiss('\\', [Taken(s[1])] + rest, Sought(k), Into(k));
      ReplaceMiss(Taken(s[1]), rest, Sought(k), Into(k));
    } else {
      StagePair(k - 1, s);
      StageLetter(k - 1, s[1..]);
      assert s[1..][1..] == s[2..];
      assert Sought(k) == ['\\', s[1]] && Into(k) == [Taken(s[1])];
      assert Stage(k - 1, s) == ['\\'] + (Sought(k) + rest);
      ReplaceMiss('\\', Sought(k) + rest, Sought(k), Into(k));
      ReplaceHit(rest, Sought(k), Into(k));
    }
  }

  lemma PairStage(k: nat, s: string)
    requires 1 <= k <= 4 && s != "" && s[0] == '\\' && (|s| > 1 ==> !IsCollapsed(k, s[1]))
    requires Replace(Stage(k - 1, s[1..]), Sought(k), Into(k)) == Stage(k, s[1..])
    ensures Replace(Stage(k - 1, s), Sought(k), Into(k)) == Stage(k, s)
  {
    hide Replace, Stage;
    var rest := Stage(k - 1, s[1..]);
    StagePair(k - 1, s);
    StagePair(k, s);
    if k == 4 {
      ReplaceHit(rest, Sought(k), Into(k));
    } else {
      StageStarts(k - 1, s[1..]);
      assert "\\\\" + rest == ['\\'] + (['\\'] + rest);
      ReplaceMiss('\\', ['\\'] + rest, Sought(k), Into(k));
      ReplaceMiss('\\', rest, Sought(k), Into(k));
      assert "\\\\" + Stage(k, s[1..]) == ['\\'] + (['\\'] + Stage(k, s[1..]));
    }
  }

  /** What the last stage shows differs from the text exactly where a trap letter was taken. */
  lemma {:induction false} LastStage(s: string)
    ensures |Stage(4, s)| == |s|
    ensures Stage(4, s) == s <==> !HasTrap(s)
    decreases |s|
  {
    if s == "" {
    } else if |s| > 1 && s[0] == '\\' && IsTrapLetter(s[1]) {
      LastStage(s[2..]);
      assert Stage(4, s)[1] != s[1];
    } else {
      LastStage(s[1..]);
      assert StageChar(4, s[0]) == [s[0]];
      assert Stage(4, s)[1..] == Stage(4, s[1..]) && Stage(4, s)[0] == s[0];
      assert s == [s[0]] + s[1..];
      TrapNext(s);
    }
  }

  lemma TrapNext(s: string)
    requires s != "" && !(|s| > 1 && s[0] == '\\' && IsTrapLetter(s[1]))
    ensures HasTrap(s) <==> HasTrap(s[1..])
  {
    if HasTrap(s) {
      var i :| 0 <= i < |s| - 1 && s[i] == '\\' && IsTrapLetter(s[i + 1]);
      assert s[1..][i - 1] == '\\' && IsTrapLetter(s[1..][i - 1 + 1]);
    }
    if HasTrap(s[1..]) {
      var i :| 0 <= i < |s[1..]| - 1 && s[1..][i] == '\\' && IsTrapLetter(s[1..][i + 1]);
      assert s[i + 1] == '\\' && IsTrapLetter(s[i + 1 + 1]);
    }
  }

  /** A double-quoted scalar reads back as the text that was escaped exactly when the text has no trap. */
  lemma DoubleQuotesReadBackIff(s: string)
    ensures ParseScalar("\"" + Escape(s) + "\"") == Str(s) <==> !HasTrap(s)
  {
    hide Replace, Stage, Escape;
    var text := "\"" + Escape(s) + "\"";
    assert text[1..|text| - 1] == Escape(s);
    StageZero(s);
    NextStage(1, s);
    NextStage(2, s);
    NextStage(3, s);
    NextStage(4, s);
    LastStage(s);
  }

  /** A backslash and an n come back as something else: unescaping takes them for a line break. */
  lemma BackslashN()
    ensures ParseScalar("\"" + Escape("\\n") + "\"") != Str("\\n")
  {
    hide ParseScalar, Escape;
    assert "\\n"[0] == '\\' && IsTrapLetter("\\n"[1]);
    DoubleQuotesReadBackIff("\\n");
  }
}
