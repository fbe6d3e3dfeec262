/**
 The block layer of the YAML-subset parser: mappings, lists, the "- key: value"
 items that re-slice the lines below them, block scalars and one-line scalars.

 One-line flow values ("{..}" and "[..]") are read by a parser the block layer is given,
 here the parameter `flow`; every other value is modelled.
 */
module YamlParser {
  import opened Outcomes
  import opened PyText
  import opened YamlScan

  /** A parsed value. A float is its source text; a mapping keeps its keys in insertion order. */
  datatype Value =
    | Null
    | Bool(b: bool)
    | Int(n: int)
    | Float(text: string)
    | Str(s: string)
    | List(items: seq<Value>)
    | Map(entries: seq<Entry>)

  datatype Entry = Entry(key: string, value: Value)

  /** dict keys are distinct. */
  predicate DistinctKeys(entries: seq<Entry>) {
    forall a, b | 0 <= a < b < |entries| :: entries[a].key != entries[b].key
  }

  type FlowParser = string -> Result<Value, YamlError>

  /** A value and the index of the first line it does not use. */
  datatype Parsed<+T> = Parsed(value: T, next: nat)

  type BlockResult = Result<Parsed<Value>, YamlError>

  /** dict assignment: an existing key keeps its place. */
  function Put(entries: seq<Entry>, key: string, value: Value): (r: seq<Entry>)
  {
    if entries == [] then [Entry(key, value)]
    else if entries[0].key == key then [Entry(key, value)] + entries[1..]
    else [entries[0]] + Put(entries[1..], key, value)
  }

  predicate IsItem(content: string) {
    content == "-" || "- " <= content
  }

  /** The text of a list item after its dash. */
  function ItemText(content: string): string
    requires IsItem(content)
  {
    if content == "-" then "" else Strip(content[2..])
  }

  predicate IsBlockIndicator(rest: string) {
    rest in {"|", "|-", "|+", ">", ">-", ">+"}
  }

  /** The first index at or after i whose line is not deeper than indent. */
  function DeeperEnd(lines: seq<Line>, i: nat, indent: nat): (j: nat)
    requires i <= |lines|
    ensures i <= j <= |lines|
    ensures forall k | i <= k < j :: lines[k].indent > indent
    ensures j < |lines| ==> lines[j].indent <= indent
    decreases |lines| - i
  {
    if i < |lines| && lines[i].indent > indent then DeeperEnd(lines, i + 1, indent) else i
  }

  /* ---------- one-line values ---------- */

  /** str.replace for a non-empty sought text. */
  function Replace(s: string, from: string, into: string): string
    requires from != ""
    decreases |s|
  {
    if s == "" then ""
    else if from <= s then into + Replace(s[|from|..], from, into)
    else [s[0]] + Replace(s[1..], from, into)
  }

  function ParseScalar(s: string): Value {
    if |s| >= 2 && s[0] == s[|s| - 1] && IsQuote(s[0]) then
      var body := s[1..|s| - 1];
      if s[0] == '"' then
        Str(Replace(Replace(Replace(Replace(body, "\\\"", "\""), "\\n", "\n"), "\\t", "\t"), "\\\\", "\\"))
      else Str(Replace(body, "''", "'"))
    else if s in {"true", "True"} then Bool(true)
    else if s in {"false", "False"} then Bool(false)
    else if s in {"null", "~", ""} then Null
    else if ParseInt(s).Some? then Int(ParseInt(s).value)
    else if IsFloatText(s) then Float(s)
    else Str(s)
  }

  function ParseInline(flow: FlowParser, text: string): Result<Value, YamlError> {
    var s := Strip(text);
    if s != "" && (s[0] == '{' || s[0] == '[') then flow(s) else Ok(ParseScalar(s))
  }

  function Contents(lines: seq<Line>): (cs: seq<string>)
    ensures |cs| == |lines|
  {
    if lines == [] then [] else [lines[0].content] + Contents(lines[1..])
  }

  /** The text of a block scalar over the deeper lines of its key. */
  function BlockScalarText(body: seq<Line>, indicator: string): string
    requires indicator != ""
  {
    Join(if indicator[0] == '|' then "\n" else " ", Contents(body))
    + (if indicator[|indicator| - 1] == '-' then "" else "\n")
  }

  /* ---------- blocks ---------- */

  /** A block starting at line i, if that line is at least minIndent deep. */
  function ParseBlock(flow: FlowParser, lines: seq<Line>, i: nat, minIndent: nat): (r: BlockResult)
    requires i <= |lines|
    ensures r.Ok? ==> i <= r.value.next <= |lines|
    ensures r.Ok? && i < |lines| && lines[i].indent >= minIndent ==> r.value.next > i
    ensures r.Ok? ==> forall k | i <= k < r.value.next :: lines[k].indent >= lines[i].indent >= minIndent
    decreases |lines| - i, 3
  {
    if i >= |lines| || lines[i].indent < minIndent then Ok(Parsed(Null, i))
    else if IsItem(lines[i].content) then ParseList(flow, lines, i, lines[i].indent, [])
    else ParseMapping(flow, lines, i, lines[i].indent, [])
  }

  /** The mapping at this indent, continued at line i after the entries already read. */
  function ParseMapping(flow: FlowParser, lines: seq<Line>, i: nat, indent: nat, out: seq<Entry>): (r: BlockResult)
    requires i <= |lines|
    ensures r.Ok? ==> i <= r.value.next <= |lines| && r.value.value.Map?
    ensures r.Ok? && i < |lines| && lines[i].indent == indent && !IsItem(lines[i].content) ==> r.value.next > i
    ensures r.Ok? ==> forall k | i <= k < r.value.next :: lines[k].indent >= indent
    decreases |lines| - i, 0
  {
    if i < |lines| && lines[i].indent == indent && !IsItem(lines[i].content) then
      var split := SplitKey(lines[i].content);
      if split.None? then Err(ExpectedKey(lines[i].lineno)) else
        var KeyRest(key, rest) := split.value;
        var entry :- ParseEntryValue(flow, lines, i + 1, indent, rest);
        ParseMapping(flow, lines, entry.next, indent, Put(out, key, entry.value))
    else if i < |lines| && lines[i].indent > indent then Err(UnexpectedIndentation(lines[i].lineno))
    else Ok(Parsed(Map(out), i))
  }

  /** The value of a key whose own line ends with `rest`; i is the next line. */
  function ParseEntryValue(flow: FlowParser, lines: seq<Line>, i: nat, indent: nat, rest: string): (r: BlockResult)
    requires i <= |lines|
    ensures r.Ok? ==> i <= r.value.next <= |lines|
    ensures r.Ok? ==> forall k | i <= k < r.value.next :: lines[k].indent >= indent
    decreases |lines| - i, 4
  {
    if rest == "" then
      if i < |lines| && lines[i].indent > indent then ParseBlock(flow, lines, i, lines[i].indent)
      else if i < |lines| && lines[i].indent == indent && IsItem(lines[i].content) then
        ParseList(flow, lines, i, indent, [])
      else Ok(Parsed(Null, i))
    else if IsBlockIndicator(rest) then
      var end := DeeperEnd(lines, i, indent);
      Ok(Parsed(Str(BlockScalarText(lines[i..end], rest)), end))
    else
      var v :- ParseInline(flow, rest);
      Ok(Parsed(v, i))
  }

  /** The lines of a mapping opened by a list item: the item's own text, then the deeper lines. */
  function ItemLines(lines: seq<Line>, i: nat, indent: nat): (sub: seq<Line>)
    requires i < |lines| && IsItem(lines[i].content)
    ensures |sub| == DeeperEnd(lines, i + 1, indent) - i
  {
    [Line(indent + 2, ItemText(lines[i].content), lines[i].lineno)] + lines[i + 1..DeeperEnd(lines, i + 1, indent)]
  }

  /** The list item at line i. */
  function ParseItem(flow: FlowParser, lines: seq<Line>, i: nat, indent: nat): (r: BlockResult)
    requires i < |lines| && lines[i].indent == indent && IsItem(lines[i].content)
    ensures r.Ok? ==> i < r.value.next <= |lines|
    ensures r.Ok? ==> forall k | i <= k < r.value.next :: lines[k].indent >= indent
    decreases |lines| - i, 1
  {
    var item := ItemText(lines[i].content);
    if item == "" then
      if i + 1 < |lines| && lines[i + 1].indent > indent then ParseBlock(flow, lines, i + 1, lines[i + 1].indent)
      else Ok(Parsed(Null, i + 1))
    else if SplitKey(item).Some? then
      var sub := ItemLines(lines, i, indent);
      var v :- ParseMapping(flow, sub, 0, indent + 2, []);
      if v.next != |sub| then Err(UnparsedListItem(sub[v.next].lineno))
      else Ok(Parsed(v.value, i + |sub|))
    else
      var v :- ParseInline(flow, item);
      Ok(Parsed(v, i + 1))
  }

  /** The list at this indent, continued at line i after the items already read. */
  function ParseList(flow: FlowParser, lines: seq<Line>, i: nat, indent: nat, out: seq<Value>): (r: BlockResult)
    requires i <= |lines|
    ensures r.Ok? ==> i <= r.value.next <= |lines| && r.value.value.List?
    ensures r.Ok? && i < |lines| && lines[i].indent == indent && IsItem(lines[i].content) ==> r.value.next > i
    ensures r.Ok? ==> forall k | i <= k < r.value.next :: lines[k].indent >= indent
    decreases |lines| - i, 2
  {
    if i < |lines| && lines[i].indent == indent && IsItem(lines[i].content) then
      var item :- ParseItem(flow, lines, i, indent);
      ParseList(flow, lines, item.next, indent, out + [item.value])
    else Ok(Parsed(List(out), i))
  }

  /** parse_yaml_subset: None for a text without content. */
  function ParseYamlSubset(flow: FlowParser, text: string): Result<Value, YamlError> {
    var lines :- PrepLines(text);
    if lines == [] then Ok(Null) else
      var block :- ParseBlock(flow, lines, 0, lines[0].indent);
      if block.next != |lines| then Err(Unparsed(lines[block.next].lineno)) else Ok(block.value)
  }

  /** A value is returned only when the block took every line, so none is indented less than the first. */
  lemma WholeTextIsRead(flow: FlowParser, text: string)
    requires ParseYamlSubset(flow, text).Ok?
    ensures PrepLines(text).Ok?
    ensures
      var lines := PrepLines(text).value;
      && (lines == [] ==> ParseYamlSubset(flow, text) == Ok(Null))
      && (lines != [] ==>
            ParseBlock(flow, lines, 0, lines[0].indent) == Ok(Parsed(ParseYamlSubset(flow, text).value, |lines|)))
      && (forall k | 0 <= k < |lines| :: lines[k].indent >= lines[0].indent)
  {
  }
}
