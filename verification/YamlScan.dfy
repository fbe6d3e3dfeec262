/**
 The quote-aware line scanners below the YAML-subset parser: dropping comments,
 splitting "key: rest", and preparing the indented lines.
 */
module YamlScan {
  import opened Outcomes
  import opened PyText

  /** One prepared line: leading spaces, trimmed content, 1-based line number. */
  datatype Line = Line(indent: nat, content: string, lineno: nat)

  datatype YamlError =
    | TabIndentation(lineno: nat)
    | ExpectedKey(lineno: nat)
    | UnexpectedIndentation(lineno: nat)
    | UnparsedListItem(lineno: nat)
    | Unparsed(lineno: nat)
    | FlowRefused(text: string)

  /* ---------- comments ---------- */

  /** A '#' opens a comment at the start of a line or after a blank. */
  predicate HashOpens(line: string, i: nat)
    requires i < |line|
  {
    line[i] == '#' && (i == 0 || IsBlank(line[i - 1]))
  }

  /** Where the comment starts when scanning from i inside the given quote; the length if there is none. */
  function CommentStart(line: string, i: nat, quote: Option<char>): (n: nat)
    ensures n <= |line|
    decreases |line| - i
  {
    if i >= |line| then |line|
    else if quote.Some? then
      if quote.value == '"' && line[i] == '\\' then CommentStart(line, i + 2, quote)
      else CommentStart(line, i + 1, if line[i] == quote.value then None else quote)
    else if IsQuote(line[i]) then CommentStart(line, i + 1, Some(line[i]))
    else if HashOpens(line, i) then i
    else CommentStart(line, i + 1, None)
  }

  function StripComment(line: string): string {
    RStrip(line[..CommentStart(line, 0, None)])
  }

  /** The scanning loop behind StripComment. */
  method ScanComment(line: string) returns (stripped: string)
    ensures stripped == StripComment(line)
  {
    var quote: Option<char> := None;
    var i := 0;
    while i < |line|
      invariant CommentStart(line, 0, None) == CommentStart(line, i, quote)
    {
      var ch := line[i];
      if quote.Some? {
        if quote.value == '"' && ch == '\\' {
          i := i + 1;
        } else if ch == quote.value {
          quote := None;
        }
      } else if IsQuote(ch) {
        quote := Some(ch);
      } else if HashOpens(line, i) {
        return RStrip(line[..i]);
      }
      i := i + 1;
    }
    assert line[..|line|] == line;
    return RStrip(line);
  }

  /* ---------- keys ---------- */

  /** A ':' separates a key when a blank or the end of the text follows. */
  predicate ColonSeparates(content: string, i: nat)
    requires i < |content|
  {
    content[i] == ':' && (i + 1 == |content| || IsBlank(content[i + 1]))
  }

  /** The first separating ':' outside quotes, scanning from i. */
  function KeyColon(content: string, i: nat, quote: Option<char>): (n: Option<nat>)
    ensures n.Some? ==> n.value < |content|
    decreases |content| - i
  {
    if i >= |content| then None
    else if quote.Some? then
      if quote.value == '"' && content[i] == '\\' then KeyColon(content, i + 2, quote)
      else KeyColon(content, i + 1, if content[i] == quote.value then None else quote)
    else if IsQuote(content[i]) then KeyColon(content, i + 1, Some(content[i]))
    else if ColonSeparates(content, i) then Some(i)
    else KeyColon(content, i + 1, None)
  }

  function Unquote(key: string): string {
    if |key| >= 2 && key[0] == key[|key| - 1] && IsQuote(key[0]) then key[1..|key| - 1] else key
  }

  datatype KeyRest = KeyRest(key: string, rest: string)

  function SplitKey(content: string): Option<KeyRest> {
    var colon := KeyColon(content, 0, None);
    if colon.None? then None
    else Some(KeyRest(Unquote(Strip(content[..colon.value])), Strip(content[colon.value + 1..])))
  }

  /** The scanning loop behind SplitKey. */
  method ScanKey(content: string) returns (split: Option<KeyRest>)
    ensures split == SplitKey(content)
  {
    var quote: Option<char> := None;
    var i := 0;
    while i < |content|
      invariant KeyColon(content, 0, None) == KeyColon(content, i, quote)
    {
      var ch := content[i];
      if quote.Some? {
        if quote.value == '"' && ch == '\\' {
          i := i + 1;
        } else if ch == quote.value {
          quote := None;
        }
      } else if IsQuote(ch) {
        quote := Some(ch);
      } else if ColonSeparates(content, i) {
        var key := Strip(content[..i]);
        if |key| >= 2 && key[0] == key[|key| - 1] && IsQuote(key[0]) {
          key := key[1..|key| - 1];
        }
        return Some(KeyRest(key, Strip(content[i + 1..])));
      }
      i := i + 1;
    }
    return None;
  }

  /* ---------- lines ---------- */

  function LeadingSpaces(s: string): (n: nat)
    ensures n <= |s|
  {
    if s != "" && s[0] == ' ' then 1 + LeadingSpaces(s[1..]) else 0
  }

  /** One raw line: a refusal, nothing (blank or comment), or a prepared line. */
  function PrepLine(raw: string, lineno: nat): Result<Option<Line>, YamlError> {
    LStripEnds(raw);
    var leading := raw[..|raw| - |LStrip(raw)|];
    if '\t' in leading then Err(TabIndentation(lineno)) else
      var stripped := StripComment(raw);
      if Strip(stripped) == "" then Ok(None)
      else Ok(Some(Line(LeadingSpaces(stripped), Strip(stripped), lineno)))
  }

  /** The prepared lines of raws[k..], after those already prepared. */
  function PrepFrom(raws: seq<string>, k: nat, prepared: seq<Line>): Result<seq<Line>, YamlError>
    requires k <= |raws|
    decreases |raws| - k
  {
    if k == |raws| then Ok(prepared) else
      var line :- PrepLine(raws[k], k + 1);
      PrepFrom(raws, k + 1, if line.Some? then prepared + [line.value] else prepared)
  }

  function PrepLines(text: string): Result<seq<Line>, YamlError> {
    PrepFrom(SplitLines(text), 0, [])
  }

  /** The loop over the raw lines behind PrepLines. */
  method PrepareLines(text: string) returns (r: Result<seq<Line>, YamlError>)
    ensures r == PrepLines(text)
  {
    var raws := SplitLines(text);
    var out: seq<Line> := [];
    for k := 0 to |raws|
      invariant PrepLines(text) == PrepFrom(raws, k, out)
    {
      var raw := raws[k];
      LStripEnds(raw);
      var leading := raw[..|raw| - |LStrip(raw)|];
      if '\t' in leading {
        return Err(TabIndentation(k + 1));
      }
      var stripped := ScanComment(raw);
      if Strip(stripped) == "" {
        continue;
      }
      out := out + [Line(LeadingSpaces(stripped), Strip(stripped), k + 1)];
    }
    return Ok(out);
  }
}
